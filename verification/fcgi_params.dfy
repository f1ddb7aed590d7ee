/** Name-value pairs (section 3.4 of the FastCGI Specification 1.0): the decoder that ReadParams
    runs over the bytes of a stream, the encoder of the peer, the growing parameter vector and
    the lookup in it. */
module FcgiParams {
  import opened Common
  import opened FcgiWire

  const EQUALS: Byte := 61

  // ---------- decoding ----------

  /** A decoded length and the number of bytes it occupied, or NoLength when the bytes end
      inside it. */
  datatype Length = NoLength | Length(value: nat, size: nat)

  function ReadLength(bs: Bytes): (r: Length)
    ensures r.Length? ==> 1 <= r.size <= |bs|
  {
    if bs == [] then NoLength
    else if bs[0] < 0x80 then Length(bs[0], 1)
    else if |bs| < 4 then NoLength
    else Length(((bs[0] as int) - 0x80) * 0x1000000 + (bs[1] as int) * 0x10000 + (bs[2] as int) * 0x100 + bs[3], 4)
  }

  const INT_MAX: nat := 0x7fff_ffff

  /** The size of an entry, with its '=' and its NUL, can be computed as an int. */
  predicate EntryFits(n: nat, v: nat) {
    n + v + 2 <= INT_MAX
  }

  /** Entries added by ReadParams, and whether it returned 0. If overflow, it reached a pair whose entry size is beyond
      an int: its defined behaviour ends there, and nothing is known of the memory it asks for, if it goes on. */
  datatype Parsed = Parsed(entries: seq<Bytes>, ok: bool, overflow: bool := false)

  function MakeEntry(name: Bytes, value: Bytes): Bytes {
    name + [EQUALS] + value
  }

  /** One pair at the front of the bytes, or Cut when they end inside it. TooLarge is a pair whose declared lengths
      have no entry size that is an int, however many bytes follow. */
  datatype Front = Cut | TooLarge | Whole(entry: Bytes, rest: Bytes)

  function ParsePair(bs: Bytes): (r: Front)
    ensures r.Whole? ==> EQUALS in r.entry && |r.rest| < |bs|
  {
    match ReadLength(bs)
    case NoLength => Cut
    case Length(n, k) =>
      match ReadLength(bs[k..])
      case NoLength => Cut
      case Length(v, j) =>
        ParseBody(bs[k + j..], n, v)
  }

  /** Name and value, once their lengths are known. */
  function ParseBody(body: Bytes, n: nat, v: nat): (r: Front)
    ensures r.Whole? ==> EQUALS in r.entry && |r.rest| <= |body|
  {
    if !EntryFits(n, v) then TooLarge
    else if |body| < n + v then Cut
    else Whole(MakeEntry(body[..n], body[n..n + v]), body[n + v..])
  }

  /** What reading pairs from bs until its end adds to the vector. */
  function ParseParams(bs: Bytes): (r: Parsed)
    ensures forall i :: 0 <= i < |r.entries| ==> EQUALS in r.entries[i]
    decreases |bs|
  {
    if bs == [] then Parsed([], true)
    else
      match ParsePair(bs)
      case Cut => Parsed([], false)
      case TooLarge => Parsed([], false, true)
      case Whole(entry, rest) =>
        var tail := ParseParams(rest);
        Parsed([entry] + tail.entries, tail.ok, tail.overflow)
  }

  // ---------- encoding ----------

  /** A pair together with the peer's choice of the 4-byte form for each length. */
  datatype Pair = Pair(name: Bytes, value: Bytes, wideName: bool, wideValue: bool)
  {
    predicate Encodable() {
      && |name| < (if wideName then 0x8000_0000 else 0x80)
      && |value| < (if wideValue then 0x8000_0000 else 0x80)
      && EntryFits(|name|, |value|)
    }

    function Encode(): Bytes
      requires Encodable()
    {
      EncodeLength(|name|, wideName) + EncodeLength(|value|, wideValue) + name + value
    }

    function Entry(): Bytes {
      MakeEntry(name, value)
    }
  }

  function EncodeLength(n: nat, wide: bool): (bs: Bytes)
    requires n < if wide then 0x8000_0000 else 0x80
    ensures |bs| == if wide then 4 else 1
  {
    if wide then [0x80 + n / 0x1000000, n / 0x10000 % 256, n / 0x100 % 256, n % 256] else [n]
  }

  predicate AllPairsEncodable(ps: seq<Pair>) {
    forall i :: 0 <= i < |ps| ==> ps[i].Encodable()
  }

  /** The pairs in order, with rest behind them. */
  function EncodePairs(ps: seq<Pair>, rest: Bytes): Bytes
    requires AllPairsEncodable(ps)
  {
    if ps == [] then rest else ps[0].Encode() + EncodePairs(ps[1..], rest)
  }

  function Entries(ps: seq<Pair>): (es: seq<Bytes>)
    ensures |es| == |ps|
    ensures forall i :: 0 <= i < |ps| ==> es[i] == ps[i].Entry()
  {
    if ps == [] then [] else [ps[0].Entry()] + Entries(ps[1..])
  }

  // ---------- decoding inverts encoding ----------

  lemma ReadLengthInverts(n: nat, wide: bool, rest: Bytes)
    requires n < if wide then 0x8000_0000 else 0x80
    ensures ReadLength(EncodeLength(n, wide) + rest) == Length(n, if wide then 4 else 1)
    ensures var l := EncodeLength(n, wide);
            if !wide then l == [n]
            else n == (l[0] as int) * 0x1000000 + (l[1] as int) * 0x10000 + (l[2] as int) * 0x100 + l[3] - 0x8000_0000
  {
    var bs := EncodeLength(n, wide) + rest;
    if wide {
      var n2, n1 := n / 0x10000, n / 0x100;
      assert n2 / 256 == n / 0x1000000;
      assert n1 / 256 == n2;
      assert bs[0] == 0x80 + n / 0x1000000 && bs[1] == n2 % 256 && bs[2] == n1 % 256 && bs[3] == n % 256;
    }
  }

  lemma Slices(a: Bytes, b: Bytes, c: Bytes, d: Bytes, rest: Bytes)
    ensures
      var bs := a + b + c + d + rest;
      && bs == a + (b + (c + d + rest))
      && bs[|a|..] == b + (c + d + rest)
      && bs[|a| + |b|..] == c + d + rest
  {
    var bs := a + b + c + d + rest;
    assert bs == a + (b + (c + d + rest));
    assert bs[|a| + |b|..] == bs[|a|..][|b|..];
  }

  /** The body of a complete pair. */
  lemma ParseBodyInverts(p: Pair, rest: Bytes)
    requires p.Encodable()
    ensures ParseBody(p.name + p.value + rest, |p.name|, |p.value|) == Whole(p.Entry(), rest)
  {
    var body := p.name + p.value + rest;
    assert body[..|p.name|] == p.name;
    assert body[|p.name|..|p.name| + |p.value|] == p.value;
    assert body[|p.name| + |p.value|..] == rest;
  }

  /** A complete pair at the front of the bytes becomes one entry. */
  lemma ParsePairInverts(p: Pair, rest: Bytes)
    requires p.Encodable()
    ensures ParsePair(p.Encode() + rest) == Whole(p.Entry(), rest)
  {
    hide ReadLength, EncodeLength, ParseBody, MakeEntry;
    var ln, lv := EncodeLength(|p.name|, p.wideName), EncodeLength(|p.value|, p.wideValue);
    Slices(ln, lv, p.name, p.value, rest);
    ReadLengthInverts(|p.name|, p.wideName, lv + (p.name + p.value + rest));
    ReadLengthInverts(|p.value|, p.wideValue, p.name + p.value + rest);
    ParseBodyInverts(p, rest);
  }

  lemma ParseOnePair(p: Pair, rest: Bytes)
    requires p.Encodable()
    ensures var tail := ParseParams(rest);
            ParseParams(p.Encode() + rest) == Parsed([p.Entry()] + tail.entries, tail.ok, tail.overflow)
  {
    ParsePairInverts(p, rest);
  }

  /** ReadParams over an encoded list of pairs, followed by anything, adds exactly the listed
      entries first. */
  lemma {:induction false} ParsePairsThen(ps: seq<Pair>, rest: Bytes)
    requires AllPairsEncodable(ps)
    ensures ParseParams(EncodePairs(ps, rest)).entries == Entries(ps) + ParseParams(rest).entries
    ensures ParseParams(EncodePairs(ps, rest)).ok == ParseParams(rest).ok
    ensures ParseParams(EncodePairs(ps, rest)).overflow == ParseParams(rest).overflow
  {
    if ps == [] {
      assert Entries(ps) + ParseParams(rest).entries == ParseParams(rest).entries;
    } else {
      ParsePairsThen(ps[1..], rest);
      ParseOnePair(ps[0], EncodePairs(ps[1..], rest));
      ConcatAssoc([ps[0].Entry()], Entries(ps[1..]), ParseParams(rest).entries);
    }
  }

  /** Decoding inverts encoding for every list of pairs and every choice of length forms. */
  lemma DecodeInvertsEncode(ps: seq<Pair>)
    requires AllPairsEncodable(ps)
    ensures ParseParams(EncodePairs(ps, [])) == Parsed(Entries(ps), true)
  {
    ParsePairsThen(ps, []);
    assert Entries(ps) + [] == Entries(ps);
  }

  /** Reading a length from a cut encoding fails, or leaves the cut remainder. */
  lemma CutLength(n: nat, wide: bool, rest: Bytes, at: nat)
    requires n < if wide then 0x8000_0000 else 0x80
    requires at <= |EncodeLength(n, wide)| + |rest|
    ensures
      var l := EncodeLength(n, wide);
      var bs := (l + rest)[..at];
      if at < |l| then ReadLength(bs) == NoLength
      else ReadLength(bs) == Length(n, |l|) && bs[|l|..] == rest[..at - |l|]
  {
    var l := EncodeLength(n, wide);
    var bs := (l + rest)[..at];
    if at < |l| {
      if at > 0 {
        assert bs[0] == l[0];
      }
    } else {
      assert bs == l + rest[..at - |l|];
      ReadLengthInverts(n, wide, rest[..at - |l|]);
    }
  }

  /** Bytes that end strictly inside a pair do not parse, and add nothing for that pair. */
  lemma CutPairFails(p: Pair, n: nat)
    requires p.Encodable() && 0 < n < |p.Encode()|
    ensures ParseParams(p.Encode()[..n]) == Parsed([], false)
  {
    var bs := p.Encode()[..n];
    var ln, lv := EncodeLength(|p.name|, p.wideName), EncodeLength(|p.value|, p.wideValue);
    Slices(ln, lv, p.name, p.value, []);
    assert p.Encode() + [] == p.Encode();
    assert p.name + p.value + [] == p.name + p.value;
    CutLength(|p.name|, p.wideName, lv + (p.name + p.value), n);
    if n >= |ln| {
      CutLength(|p.value|, p.wideValue, p.name + p.value, n - |ln|);
    }
    assert ParsePair(bs) == Cut;
  }

  /** An end of input strictly inside a pair makes ReadParams return -1, after it has added
      the entries of the complete pairs before it. */
  lemma TruncatedPairFails(ps: seq<Pair>, p: Pair, n: nat)
    requires AllPairsEncodable(ps) && p.Encodable() && 0 < n < |p.Encode()|
    ensures ParseParams(EncodePairs(ps, p.Encode()[..n])) == Parsed(Entries(ps), false)
  {
    CutPairFails(p, n);
    ParsePairsThen(ps, p.Encode()[..n]);
    assert Entries(ps) + [] == Entries(ps);
  }

  lemma WriteLengthInverts(bs: Bytes)
    requires ReadLength(bs).Length?
    ensures var l := ReadLength(bs);
            var wide := bs[0] >= 0x80;
            && l.value < (if wide then 0x8000_0000 else 0x80)
            && EncodeLength(l.value, wide) == bs[..l.size]
  {
    if bs[0] >= 0x80 {
      var n := ReadLength(bs).value;
      var b0: int, b1: int, b2: int, b3: int := bs[0], bs[1], bs[2], bs[3];
      assert n == (b0 - 0x80) * 0x1000000 + b1 * 0x10000 + b2 * 0x100 + b3;
      assert n / 0x100 == (b0 - 0x80) * 0x10000 + b1 * 0x100 + b2;
      assert n / 0x10000 == (b0 - 0x80) * 0x100 + b1;
      assert n / 0x1000000 == b0 - 0x80;
      assert EncodeLength(n, true) == [bs[0], bs[1], bs[2], bs[3]] == bs[..4];
    } else {
      assert bs[..1] == [bs[0]];
    }
  }

  lemma Unslice(bs: Bytes, k: nat, j: nat, n: nat, v: nat)
    requires k + j + n + v <= |bs|
    ensures bs == bs[..k] + (bs[k..][..j] + (bs[k + j..][..n] + bs[k + j..][n..n + v] + bs[k + j..][n + v..]))
  {
    var after, body := bs[k..], bs[k + j..];
    assert body == body[..n] + body[n..n + v] + body[n + v..];
    assert after == after[..j] + body;
    assert bs == bs[..k] + after;
  }

  lemma EncodeAround(p: Pair, rest: Bytes)
    requires p.Encodable()
    ensures p.Encode() + rest
         == EncodeLength(|p.name|, p.wideName) + (EncodeLength(|p.value|, p.wideValue) + (p.name + p.value + rest))
  {
    Slices(EncodeLength(|p.name|, p.wideName), EncodeLength(|p.value|, p.wideValue), p.name, p.value, rest);
  }

  /** The lengths at the front of a pair that parses are encodings. */
  lemma ParsedLengths(bs: Bytes) returns (n: nat, wide: bool, v: nat, wide': bool)
    requires ParsePair(bs).Whole?
    ensures n < (if wide then 0x8000_0000 else 0x80) && v < (if wide' then 0x8000_0000 else 0x80) && EntryFits(n, v)
    ensures
      var k, j := |EncodeLength(n, wide)|, |EncodeLength(v, wide')|;
      && k + j + n + v <= |bs|
      && bs[..k] == EncodeLength(n, wide)
      && bs[k..][..j] == EncodeLength(v, wide')
      && ParsePair(bs).rest == bs[k + j..][n + v..]
  {
    var l := ReadLength(bs);
    var m := ReadLength(bs[l.size..]);
    n, wide, v, wide' := l.value, bs[0] >= 0x80, m.value, bs[l.size] >= 0x80;
    WriteLengthInverts(bs);
    WriteLengthInverts(bs[l.size..]);
  }

  /** A pair that parses is the encoding of some pair. */
  lemma ParsedPairIsEncoding(bs: Bytes) returns (p: Pair, rest: Bytes)
    requires ParsePair(bs).Whole?
    ensures p.Encodable() && rest == ParsePair(bs).rest && bs == p.Encode() + rest
  {
    hide ParsePair, EncodeLength;
    var n, wide, v, wide' := ParsedLengths(bs);
    var k, j := |EncodeLength(n, wide)|, |EncodeLength(v, wide')|;
    var body := bs[k + j..];
    p := Pair(body[..n], body[n..n + v], wide, wide');
    rest := body[n + v..];
    Unslice(bs, k, j, n, v);
    EncodeAround(p, rest);
  }

  /** The only byte strings ReadParams accepts are encodings of pair lists: with
      DecodeInvertsEncode, it returns 0 exactly on those. */
  lemma {:induction false} AcceptedIsEncoding(bs: Bytes) returns (ps: seq<Pair>)
    requires ParseParams(bs).ok
    ensures AllPairsEncodable(ps) && EncodePairs(ps, []) == bs
    decreases |bs|
  {
    if bs == [] {
      ps := [];
    } else {
      var p, rest := ParsedPairIsEncoding(bs);
      var tail := AcceptedIsEncoding(rest);
      ps := [p] + tail;
      assert ps[1..] == tail;
    }
  }

  // ---------- entry sizes beyond an int ----------

  /** Two lengths that their forms can encode, and whose entry size is no int. */
  predicate BeyondInt(n: nat, wide: bool, v: nat, wide': bool) {
    && n < (if wide then 0x8000_0000 else 0x80)
    && v < (if wide' then 0x8000_0000 else 0x80)
    && n + v + 2 >= 0x8000_0000
  }

  /** A pair can be encoded unless its entry, with its NUL, has no size that is an int. */
  lemma EncodableSizes(p: Pair)
    requires p.wideName && p.wideValue
    ensures p.Encodable() <==> |p.Entry()| + 1 < 0x8000_0000
  {
  }

  /** The bytes begin with two such lengths. */
  predicate Declares(bs: Bytes, n: nat, wide: bool, v: nat, wide': bool, tail: Bytes) {
    BeyondInt(n, wide, v, wide') && bs == EncodeLength(n, wide) + (EncodeLength(v, wide') + tail)
  }

  lemma TooLargeHeader(bs: Bytes, n: nat, wide: bool, v: nat, wide': bool, tail: Bytes)
    requires Declares(bs, n, wide, v, wide', tail)
    ensures ParsePair(bs) == TooLarge
  {
    var a, b := EncodeLength(n, wide), EncodeLength(v, wide');
    ReadLengthInverts(n, wide, b + tail);
    ReadLengthInverts(v, wide', tail);
    assert (a + (b + tail))[|a|..] == b + tail;
  }

  lemma HeaderIsTooLarge(bs: Bytes) returns (n: nat, wide: bool, v: nat, wide': bool, tail: Bytes)
    requires ParsePair(bs) == TooLarge
    ensures Declares(bs, n, wide, v, wide', tail)
  {
    var l := ReadLength(bs);
    var after := bs[l.size..];
    var m := ReadLength(after);
    n, wide, v, wide' := l.value, bs[0] >= 0x80, m.value, after[0] >= 0x80;
    tail := after[m.size..];
    WriteLengthInverts(bs);
    WriteLengthInverts(after);
    assert bs[l.size + m.size..] == tail;
    hide EncodeLength, ReadLength;
    assert bs == bs[..l.size] + after && after == after[..m.size] + tail;
  }

  /** Behind any number of whole pairs, the bytes declare two lengths whose entry size is no int. */
  ghost predicate ReachesTooLarge(bs: Bytes) {
    exists ps: seq<Pair>, rest: Bytes, n: nat, wide: bool, v: nat, wide': bool, tail: Bytes ::
      AllPairsEncodable(ps) && bs == EncodePairs(ps, rest) && Declares(rest, n, wide, v, wide', tail)
  }

  lemma {:induction false} OverflowReaches(bs: Bytes) returns (ps: seq<Pair>, rest: Bytes)
    requires ParseParams(bs).overflow
    ensures AllPairsEncodable(ps) && bs == EncodePairs(ps, rest) && ParsePair(rest) == TooLarge
    decreases |bs|
  {
    match ParsePair(bs) {
      case TooLarge => ps, rest := [], bs;
      case Whole(_, _) =>
        var p, after := ParsedPairIsEncoding(bs);
        var tail;
        tail, rest := OverflowReaches(after);
        ps := [p] + tail;
        assert ps[1..] == tail;
    }
  }

  /** What ReadParams does is defined, and it returns 0 or -1, exactly when no pair it reaches declares lengths whose
      entry size is beyond an int: the bytes that follow do not count. */
  lemma DefinedUnlessTooLarge(bs: Bytes)
    ensures ParseParams(bs).overflow <==> ReachesTooLarge(bs)
    ensures ParseParams(bs).overflow ==> !ParseParams(bs).ok
  {
    hide EncodePairs, Declares;
    if ParseParams(bs).overflow {
      var ps, rest := OverflowReaches(bs);
      var n, wide, v, wide', tail := HeaderIsTooLarge(rest);
      NotOkIfOverflow(bs);
    }
    if ReachesTooLarge(bs) {
      var ps: seq<Pair>, rest: Bytes, n: nat, wide: bool, v: nat, wide': bool, tail: Bytes :|
        AllPairsEncodable(ps) && bs == EncodePairs(ps, rest) && Declares(rest, n, wide, v, wide', tail);
      TooLargeHeader(rest, n, wide, v, wide', tail);
      ParsePairsThen(ps, rest);
      assert ParseParams(rest).overflow;
    }
  }

  lemma {:induction false} NotOkIfOverflow(bs: Bytes)
    ensures ParseParams(bs).overflow ==> !ParseParams(bs).ok
    decreases |bs|
  {
    if bs != [] && ParsePair(bs).Whole? {
      NotOkIfOverflow(ParsePair(bs).rest);
    }
  }

  /** Six bytes are enough to declare such an entry. Eight bytes of 255 do it too. */
  lemma SixBytesOverflow()
    ensures ParseParams([0xff, 0xff, 0xff, 0xff, 0x00, 0x41]) == Parsed([], false, true)
    ensures ParseParams(seq(8, _ => 0xff)) == Parsed([], false, true)
  {
    var six: Bytes := [0xff, 0xff, 0xff, 0xff, 0x00, 0x41];
    assert ReadLength(six) == Length(0x7fff_ffff, 4) && six[4..] == [0x00, 0x41];
    assert ReadLength([0x00, 0x41]) == Length(0, 1);
    var eight: Bytes := seq(8, _ => 0xff);
    assert ReadLength(eight) == Length(0x7fff_ffff, 4);
    assert ReadLength(eight[4..]) == Length(0x7fff_ffff, 4);
  }

  // ---------- lookup ----------

  /** The entry begins with name followed by '='. For a NUL-free name this is what the
      strncmp test and the look at the next character decide. */
  predicate Matches(name: Bytes, entry: Bytes) {
    |name| < |entry| && entry[..|name|] == name && entry[|name|] == EQUALS
  }

  /** Index of the first entry that matches. */
  function FindParam(name: Bytes, entries: seq<Bytes>): (r: Option<nat>)
    ensures r.Some? ==> r.value < |entries| && Matches(name, entries[r.value])
    ensures r.Some? ==> forall i :: 0 <= i < r.value ==> !Matches(name, entries[i])
    ensures r.None? ==> forall i :: 0 <= i < |entries| ==> !Matches(name, entries[i])
  {
    if entries == [] then None
    else if Matches(name, entries[0]) then Some(0)
    else
      match FindParam(name, entries[1..])
      case None => None
      case Some(i) => Some(i + 1)
  }

  /** Index of the first pair with the given name. */
  function FirstNamed(name: Bytes, ps: seq<Pair>): (r: Option<nat>)
    ensures r.Some? ==> r.value < |ps| && ps[r.value].name == name
    ensures r.Some? ==> forall i :: 0 <= i < r.value ==> ps[i].name != name
    ensures r.None? ==> forall i :: 0 <= i < |ps| ==> ps[i].name != name
  {
    if ps == [] then None
    else if ps[0].name == name then Some(0)
    else
      match FirstNamed(name, ps[1..])
      case None => None
      case Some(i) => Some(i + 1)
  }

  /** No pair ahead of the wanted one has a name that itself begins with name and '='. */
  predicate Unshadowed(name: Bytes, ps: seq<Pair>) {
    forall i :: 0 <= i < (match FirstNamed(name, ps) case None => |ps| case Some(k) => k)
                ==> !Matches(name, ps[i].name)
  }

  lemma MatchesEntry(name: Bytes, p: Pair)
    requires EQUALS !in name
    ensures Matches(name, p.Entry()) <==> p.name == name || Matches(name, p.name)
  {
    var e := p.Entry();
    if |p.name| < |name| {
      assert name[|p.name|] != EQUALS;
      assert |name| < |e| ==> e[..|name|][|p.name|] == EQUALS;
    } else {
      assert e[..|name|] == p.name[..|name|];
      if |p.name| > |name| {
        assert e[|name|] == p.name[|name|];
      } else {
        assert p.name[..|name|] == p.name;
      }
    }
  }

  /** Looking a name without '=' up finds the first pair of that name, exactly when no earlier
      pair's own name starts with "name=". In particular it does when no pair name contains '='. */
  lemma LookupFindsFirstPair(name: Bytes, ps: seq<Pair>)
    requires EQUALS !in name
    ensures FindParam(name, Entries(ps)) == FirstNamed(name, ps) <==> Unshadowed(name, ps)
    ensures (forall i :: 0 <= i < |ps| ==> EQUALS !in ps[i].name) ==> Unshadowed(name, ps)
  {
    forall i | 0 <= i < |ps|
      ensures Matches(name, Entries(ps)[i]) <==> ps[i].name == name || Matches(name, ps[i].name)
    {
      MatchesEntry(name, ps[i]);
    }
    var f, g := FindParam(name, Entries(ps)), FirstNamed(name, ps);
    if f == g {
      forall i | 0 <= i < (match g case None => |ps| case Some(k) => k)
        ensures !Matches(name, ps[i].name)
      {
        assert !Matches(name, Entries(ps)[i]);
      }
    }
  }

  /** What is then behind the '=' is that pair's value. */
  lemma LookupFindsFirstValue(name: Bytes, ps: seq<Pair>)
    requires EQUALS !in name && Unshadowed(name, ps)
    ensures match FirstNamed(name, ps)
            case None => FindParam(name, Entries(ps)) == None
            case Some(k) => FindParam(name, Entries(ps)) == Some(k) && Entries(ps)[k][|name| + 1..] == ps[k].value
  {
    LookupFindsFirstPair(name, ps);
    match FirstNamed(name, ps) {
      case None =>
      case Some(k) => assert Entries(ps)[k] == name + [EQUALS] + ps[k].value;
    }
  }

  /** A C string stops at its first NUL. */
  function CString(bs: Bytes): (s: Bytes)
    ensures 0 !in s && |s| <= |bs| && s == bs[..|s|]
    ensures |s| < |bs| ==> bs[|s|] == 0
  {
    if bs == [] || bs[0] == 0 then [] else [bs[0]] + CString(bs[1..])
  }

  // ---------- the parameter vector ----------

  /** A growing vector of strings that always keeps a NULL after the last one. */
  class Params {
    var vec: array<Option<Bytes>>
    var length: nat
    var cur: nat

    ghost predicate Valid()
      reads this, vec
    {
      && vec.Length == length
      && cur < length
      && vec[cur] == None
      && forall i :: 0 <= i < cur ==> vec[i].Some?
    }

    ghost function Contents(): (s: seq<Bytes>)
      requires Valid()
      reads this, vec
    {
      seq(cur, i requires 0 <= i < cur reads this, vec requires Valid() => vec[i].value)
    }

    /** NewParams. */
    constructor (initial: nat)
      requires initial >= 1
      ensures Valid() && fresh(vec) && length == initial && Contents() == []
    {
      vec := new Option<Bytes>[initial](_ => None);
      length := initial;
      cur := 0;
    }

    /** PutParam: append, doubling the vector when the free slot would be lost. */
    method PutParam(nameValue: Bytes)
      requires Valid()
      modifies this, vec
      ensures Valid() && (vec == old(vec) || fresh(vec))
      ensures Contents() == old(Contents()) + [nameValue]
      ensures length == if old(cur) + 1 < old(length) then old(length) else 2 * old(length)
    {
      vec[cur] := Some(nameValue);
      cur := cur + 1;
      if cur >= length {
        length := 2 * length;
        var bigger := new Option<Bytes>[length](_ => None);
        for i := 0 to cur
          invariant bigger.Length == length && fresh(bigger) && vec == old(vec)
          invariant vec.Length == cur == old(cur) + 1 && length == 2 * old(length)
          invariant forall k :: 0 <= k < cur ==> vec[k] == if k < old(cur) then old(vec[k]) else Some(nameValue)
          invariant forall k :: 0 <= k < i ==> bigger[k] == vec[k]
          invariant forall k :: i <= k < length ==> bigger[k] == None
        {
          bigger[i] := vec[i];
        }
        vec := bigger;
      }
      vec[cur] := None;
    }

    /** FCGX_GetParam: scan to the NULL slot for the first match; the result points behind the '='.
        A NULL name gives NULL. */
    method GetParam(name: Option<Bytes>) returns (value: Option<Bytes>)
      requires Valid()
      requires name.Some? ==> 0 !in name.value
      ensures name.None? ==> value == None
      ensures name.Some? ==>
                match FindParam(name.value, Contents())
                case None => value == None
                case Some(i) => value == Some(CString(Contents()[i][|name.value| + 1..]))
    {
      if name.None? {
        return None;
      }
      var n := name.value;
      var p := 0;
      while vec[p].Some?
        invariant p <= cur
        invariant forall i :: 0 <= i < p ==> !Matches(n, Contents()[i])
        decreases cur - p
      {
        if Matches(n, vec[p].value) {
          assert Contents()[p] == vec[p].value;
          return Some(CString(vec[p].value[|n| + 1..]));
        }
        p := p + 1;
      }
      return None;
    }
  }
}
