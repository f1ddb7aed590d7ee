/** Sizzle's CHILD filter: the position of an element among its siblings, walked to from a remembered place or
    looked up, against counting. */
module SizzleNth {
  import opened Common

  /** A child node: whether it is an element, and its node name. */
  datatype Child = Child(element: bool, name: nat)

  datatype Kind = First | Last | Only | Nth | NthLast

  // ---------- positions ----------

  /** What is counted: elements, or nodes of one name for the -of-type filters. */
  predicate Counted(c: Child, name: Option<nat>) {
    if name.Some? then c.name == name.value else c.element
  }

  /** How many of the children from lo to hi are counted. */
  function Count(children: seq<Child>, name: Option<nat>, lo: nat, hi: nat): (n: nat)
    requires lo <= hi <= |children|
    ensures n <= hi - lo
    ensures n == 0 <==> forall i :: lo <= i < hi ==> !Counted(children[i], name)
    decreases hi - lo
  {
    if lo == hi then 0 else Count(children, name, lo, hi - 1) + if Counted(children[hi - 1], name) then 1 else 0
  }

  lemma {:induction false} CountFront(children: seq<Child>, name: Option<nat>, lo: nat, hi: nat)
    requires lo < hi <= |children|
    ensures Count(children, name, lo, hi)
            == (if Counted(children[lo], name) then 1 else 0) + Count(children, name, lo + 1, hi)
    decreases hi - lo
  {
    if lo + 1 < hi {
      CountFront(children, name, lo, hi - 1);
    }
  }

  /** The position of a child from the front or from the end, counting from one. */
  function Position(children: seq<Child>, name: Option<nat>, forward: bool, elem: nat): nat
    requires elem < |children|
  {
    if forward then Count(children, name, 0, elem + 1) else Count(children, name, elem, |children|)
  }

  function Elements(children: seq<Child>, lo: nat, hi: nat): set<nat>
    requires hi <= |children|
  {
    set i: nat | lo <= i < hi && children[i].element
  }

  function Named(children: seq<Child>, name: nat, lo: nat, hi: nat): set<nat>
    requires hi <= |children|
  {
    set i: nat | lo <= i < hi && children[i].name == name
  }

  lemma {:induction false} CountsElements(children: seq<Child>, lo: nat, hi: nat)
    requires lo <= hi <= |children|
    ensures Count(children, None, lo, hi) == |Elements(children, lo, hi)|
    decreases hi - lo
  {
    if lo == hi {
      assert Elements(children, lo, hi) == {};
    } else {
      var last := hi - 1;
      CountsElements(children, lo, last);
      assert Elements(children, lo, hi) == Elements(children, lo, last) + if children[last].element then {last} else {};
    }
  }

  lemma {:induction false} CountsNamed(children: seq<Child>, name: nat, lo: nat, hi: nat)
    requires lo <= hi <= |children|
    ensures Count(children, Some(name), lo, hi) == |Named(children, name, lo, hi)|
    decreases hi - lo
  {
    if lo == hi {
      assert Named(children, name, lo, hi) == {};
    } else {
      var last := hi - 1;
      CountsNamed(children, name, lo, last);
      assert Named(children, name, lo, hi)
             == Named(children, name, lo, last) + if children[last].name == name then {last} else {};
    }
  }

  /** A position is the number of elements, or of nodes of one name, up to there from either side. */
  lemma PositionIsNumber(children: seq<Child>, name: nat, elem: nat)
    requires elem < |children|
    ensures Position(children, None, true, elem) == |Elements(children, 0, elem + 1)|
    ensures Position(children, Some(name), true, elem) == |Named(children, name, 0, elem + 1)|
    ensures Position(children, None, false, elem) == |Elements(children, elem, |children|)|
    ensures Position(children, Some(name), false, elem) == |Named(children, name, elem, |children|)|
  {
    CountsElements(children, 0, elem + 1);
    CountsElements(children, elem, |children|);
    CountsNamed(children, name, 0, elem + 1);
    CountsNamed(children, name, elem, |children|);
  }

  // ---------- an + b ----------

  /** JavaScript's remainder has the sign of the dividend. */
  function JsRemainder(a: int, b: int): (r: int)
    requires b != 0
  {
    var m := (if a < 0 then -a else a) % (if b < 0 then -b else b);
    if a < 0 then -m else m
  }

  /** diff / first >= 0, for a divisor other than zero. */
  predicate QuotientNotNegative(a: int, b: int)
    requires b != 0
  {
    a == 0 || (a > 0) == (b > 0)
  }

  /** The return value of the filter: a remainder by zero is NaN and equal to nothing. */
  predicate InCycle(position: nat, first: int, last: int) {
    var diff := position - last;
    diff == first || (first != 0 && JsRemainder(diff, first) == 0 && QuotientNotNegative(diff, first))
  }

  lemma MultipleHasNoRemainder(n: nat, b: nat)
    requires b > 0
    ensures (n * b) % b == 0
  {
    if n > 0 {
      MultipleHasNoRemainder(n - 1, b);
      assert n * b == (n - 1) * b + b;
      AddOneMultiple((n - 1) * b, b);
    }
  }

  lemma AddOneMultiple(x: nat, b: nat)
    requires b > 0 && x % b == 0
    ensures (x + b) % b == 0
  {
    assert x == b * (x / b) + x % b;
    assert x + b == b * (x / b + 1);
    var q := x / b + 1;
    var y := x + b;
    assert y == b * (y / b) + y % b;
    UniqueQuotient(b, q, y / b, y % b);
  }

  lemma UniqueQuotient(b: nat, q: int, p: int, rest: int)
    requires b > 0 && b * q == b * p + rest && 0 <= rest < b
    ensures rest == 0
  {
    assert b * (q - p) == rest;
    Scaled(b, q - p);
  }

  lemma Scaled(b: int, d: int)
    requires b > 0
    ensures (d >= 1 ==> b * d >= b) && (d <= -1 ==> b * d <= -b)
  {
  }

  /** Signs do not matter for whether there is a remainder. */
  lemma NoRemainder(n: nat, first: int)
    requires first != 0
    ensures JsRemainder(first * n, first) == 0 && QuotientNotNegative(first * n, first)
  {
    var b := if first < 0 then -first else first;
    MultipleHasNoRemainder(n, b);
    assert first * n == if first < 0 then -(n * b) else n * b;
    if n > 0 {
      Scaled(b, n);
    }
  }

  lemma QuotientExists(diff: int, first: int)
    requires first != 0 && JsRemainder(diff, first) == 0 && QuotientNotNegative(diff, first)
    ensures exists n: nat :: diff == first * n
  {
    var a, b := if diff < 0 then -diff else diff, if first < 0 then -first else first;
    var n: nat := a / b;
    assert a == b * n;
    assert first * n == if first < 0 then -(b * n) else b * n;
    assert diff == first * n;
  }

  /** The test holds exactly of the positions first * n + last, for a step that is zero or negative too. */
  lemma InCycleMeansSomeN(position: nat, first: int, last: int)
    ensures InCycle(position, first, last) <==> exists n: nat :: position == first * n + last
  {
    hide JsRemainder, QuotientNotNegative;
    var diff := position - last;
    if InCycle(position, first, last) {
      if diff == first {
        assert position == first * 1 + last;
      } else {
        QuotientExists(diff, first);
        var n: nat :| diff == first * n;
        assert position == first * n + last;
      }
    }
    if n: nat :| position == first * n + last {
      if first == 0 {
        assert diff == 0;
      } else {
        NoRemainder(n, first);
      }
    }
  }

  // ---------- the filter ----------

  /** The nth- filters agree with counting; first-, last- and only- say that the position is one. */
  ghost predicate Passes(children: seq<Child>, kind: Kind, ofType: bool, first: int, last: int, elem: nat)
    requires elem < |children|
  {
    var name := if ofType then Some(children[elem].name) else None;
    match kind
    case First => Position(children, name, true, elem) == 1
    case Last => Position(children, name, false, elem) == 1
    case Only => Position(children, name, true, elem) == 1 && Position(children, name, false, elem) == 1
    case Nth => exists n: nat :: Position(children, name, true, elem) == first * n + last
    case NthLast => exists n: nat :: Position(children, name, false, elem) == first * n + last
  }

  datatype Walk = Walk(run: nat, nodeIndex: nat, diff: nat)
  datatype Seen = Seen(run: nat, diff: nat)

  /** A parent with what the filter leaves on it and on its children. The children may change between runs. */
  class Parent {
    var children: seq<Child>
    var dirruns: nat
    var cache: Option<Walk>          // parent[ expando ].nth
    var caches: map<nat, Seen>       // elem[ expando ][ "nth-last" ], by place

    ghost predicate Valid()
      reads this
    {
      && (cache.Some? ==>
            && cache.value.run <= dirruns
            && (cache.value.run == dirruns ==>
                  && cache.value.nodeIndex < |children|
                  && cache.value.diff == Count(children, None, 0, cache.value.nodeIndex + 1)))
      && LastCachesRight(caches)
    }

    ghost predicate LastCachesRight(caches: map<nat, Seen>)
      reads this`children, this`dirruns
    {
      forall k :: k in caches ==>
        && caches[k].run <= dirruns
        && (caches[k].run == dirruns ==> k < |children| && caches[k].diff == Count(children, None, k, |children|))
    }

    constructor (children: seq<Child>)
      ensures Valid() && this.children == children
    {
      this.children, dirruns, cache, caches := children, 0, None, map[];
    }

    /** Between two runs the document may change in any way. */
    method NewRun(children: seq<Child>)
      requires Valid()
      modifies this`children, this`dirruns
      ensures Valid() && this.children == children && dirruns == old(dirruns) + 1
    {
      this.children, dirruns := children, dirruns + 1;
    }

    /** first-, last- and only-: no other counted sibling on the way. */
    method NoneOnWay(elem: nat, forward: bool, name: Option<nat>) returns (r: bool)
      requires elem < |children| && Counted(children[elem], name)
      ensures r <==> Position(children, name, !forward, elem) == 1
    {
      if !forward {
        CountFront(children, name, 0, elem + 1);
      } else {
        CountFront(children, name, elem, |children|);
      }
      var node: int := if forward then elem + 1 else elem - 1;
      while 0 <= node < |children|
        invariant forward ==> elem < node <= |children| && forall i :: elem < i < node ==> !Counted(children[i], name)
        invariant !forward ==> -1 <= node < elem && forall i :: node < i < elem ==> !Counted(children[i], name)
        decreases if forward then |children| - node else node + 1
      {
        if Counted(children[node], name) {
          return false;
        }
        node := if forward then node + 1 else node - 1;
      }
      return true;
    }

    /** nth-child: from the remembered place, and from the start if the element does not come after it. */
    method SeekFromCache(elem: nat) returns (diff: nat)
      requires Valid() && elem < |children| && children[elem].element
      modifies this`cache
      ensures Valid() && diff == Position(children, None, true, elem)
      ensures cache == Some(Walk(dirruns, elem, diff))
    {
      var known := cache.Some? && cache.value.run == dirruns;
      var nodeIndex: nat := if known then cache.value.nodeIndex else 0;
      diff := if known then cache.value.diff else 0;
      var node: Option<nat> := if nodeIndex != 0 then Some(nodeIndex) else None;
      var start := true;
      while true
        invariant node.Some? ==>
                    && nodeIndex == node.value < |children| && diff == Count(children, None, 0, nodeIndex + 1)
                    && (!start ==> nodeIndex < elem)
        invariant !start ==> node.Some?
        decreases start, if node.Some? then |children| - nodeIndex else |children| + 1
      {
        nodeIndex := nodeIndex + 1;
        if node.Some? && node.value + 1 < |children| {
          node := Some(node.value + 1);
        } else {
          diff, nodeIndex := 0, 0;   // the element is a child, so that this happens at most once
          start := false;
          node := Some(0);
        }
        if children[node.value].element {
          diff := diff + 1;
          if node.value == elem {
            cache := Some(Walk(dirruns, nodeIndex, diff));
            return;
          }
        }
      }
    }

    /** nth-last-child: every element passed on the way from the end remembers its position. */
    method SeekFromEnd(elem: nat) returns (diff: nat)
      requires Valid() && elem < |children| && children[elem].element
      modifies this`caches
      ensures Valid() && diff == Position(children, None, false, elem)
    {
      if elem in caches && caches[elem].run == dirruns {
        return caches[elem].diff;
      }
      diff := 0;
      var node := |children|;
      while true
        invariant elem < node <= |children| && LastCachesRight(caches)
        invariant diff == Count(children, None, node, |children|)
        decreases node
      {
        CountFront(children, None, node - 1, |children|);
        node := node - 1;
        if children[node].element {
          diff := diff + 1;
          caches := caches[node := Seen(dirruns, diff)];
          if node == elem {
            return;
          }
        }
      }
    }

    /** Without caches: on XML documents, and for the -of-type filters. */
    method SeekPlain(elem: nat, forward: bool, name: Option<nat>) returns (diff: nat)
      requires elem < |children| && Counted(children[elem], name)
      ensures diff == Position(children, name, forward, elem)
    {
      diff := 0;
      var node: int := if forward then 0 else |children| - 1;
      while true
        invariant forward ==> 0 <= node <= elem && diff == Count(children, name, 0, node)
        invariant !forward ==> elem <= node < |children| && diff == Count(children, name, node + 1, |children|)
        decreases if forward then |children| - node else node + 1
      {
        if !forward {
          CountFront(children, name, node, |children|);
        }
        if Counted(children[node], name) {
          diff := diff + 1;
          if node == elem {
            return;
          }
        }
        node := if forward then node + 1 else node - 1;
      }
    }

    /** The closure CHILD returns, for an element of this parent. */
    method Filter(kind: Kind, ofType: bool, first: int, last: int, elem: nat, xml: bool) returns (r: bool)
      requires Valid() && elem < |children| && children[elem].element
      modifies this`cache, this`caches
      ensures Valid() && r == Passes(children, kind, ofType, first, last, elem)
    {
      var name := if ofType then Some(children[elem].name) else None;
      var useCache := !xml && !ofType;
      match kind {
        case First => r := NoneOnWay(elem, false, name);
        case Last => r := NoneOnWay(elem, true, name);
        case Only =>
          r := NoneOnWay(elem, false, name);
          if r {
            r := NoneOnWay(elem, true, name);
          }
        case Nth =>
          if first == 1 && last == 0 {
            EveryPosition(Position(children, name, true, elem));
            return true;
          }
          var diff: nat;
          if useCache {
            diff := SeekFromCache(elem);
          } else {
            diff := SeekPlain(elem, true, name);
          }
          InCycleMeansSomeN(diff, first, last);
          r := InCycle(diff, first, last);
        case NthLast =>
          if first == 1 && last == 0 {
            EveryPosition(Position(children, name, false, elem));
            return true;
          }
          var diff: nat;
          if useCache {
            diff := SeekFromEnd(elem);
          } else {
            diff := SeekPlain(elem, false, name);
          }
          InCycleMeansSomeN(diff, first, last);
          r := InCycle(diff, first, last);
      }
    }

    /** Any queries in one run, in any order, with whatever other queries left behind. */
    method Queries(kinds: seq<Kind>, ofTypes: seq<bool>, firsts: seq<int>, lasts: seq<int>, elems: seq<nat>, xml: bool)
      returns (rs: seq<bool>)
      requires Valid() && |kinds| == |ofTypes| == |firsts| == |lasts| == |elems|
      requires forall i :: 0 <= i < |elems| ==> elems[i] < |children| && children[elems[i]].element
      modifies this`cache, this`caches
      ensures Valid() && |rs| == |elems|
      ensures forall i :: 0 <= i < |elems| ==>
                rs[i] == Passes(children, kinds[i], ofTypes[i], firsts[i], lasts[i], elems[i])
    {
      hide Passes, Valid;
      rs := [];
      for i := 0 to |elems|
        invariant Valid() && |rs| == i
        invariant forall k :: 0 <= k < i ==>
                    rs[k] == Passes(children, kinds[k], ofTypes[k], firsts[k], lasts[k], elems[k])
      {
        var r := Filter(kinds[i], ofTypes[i], firsts[i], lasts[i], elems[i], xml);
        rs := rs + [r];
      }
    }
  }

  lemma EveryPosition(position: nat)
    ensures exists n: nat :: position == 1 * n + 0
  {
    assert position == 1 * position + 0;
  }
}
