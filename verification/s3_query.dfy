/**
 * The SigV4 canonical query string: percent-encoded, sorted and joined parameters, one string
 * for each multiset of parameters. Text is its UTF-8 bytes.
 */
module S3Query {
  import opened Bytes
  import opened Wrappers

  type Text = seq<byte>

  const PERCENT: byte := 0x25
  const AMPERSAND: byte := 0x26
  const EQUALS: byte := 0x3d

  // ----- percent encoding -----

  predicate Unreserved(b: byte)
  {
    || 0x41 <= b <= 0x5a || 0x61 <= b <= 0x7a || 0x30 <= b <= 0x39
    || b == 0x2e || b == 0x5f || b == 0x7e || b == 0x2d
  }

  function HexDigit(d: nat): byte
    requires d < 16
  {
    if d < 10 then 0x30 + d else 0x41 + d - 10
  }

  function HexValue(b: byte): Option<nat>
  {
    if 0x30 <= b <= 0x39 then Some(b - 0x30) else if 0x41 <= b <= 0x46 then Some(b - 0x41 + 10) else None
  }

  function EncodeByte(b: byte): Text
  {
    if Unreserved(b) then [b] else [PERCENT, HexDigit(b as int / 16), HexDigit(b as int % 16)]
  }

  function Encode(s: Text): Text
  {
    if s == [] then [] else Encode(s[..|s| - 1]) + EncodeByte(s[|s| - 1])
  }

  /** `awsUriEncode`. */
  method AwsUriEncode(value: Text) returns (result: Text)
    ensures result == Encode(value)
  {
    result := [];
    for i := 0 to |value|
      invariant result == Encode(value[..i])
    {
      assert value[..i + 1][..i] == value[..i];
      var b := value[i];
      if Unreserved(b) {
        result := result + [b];
      } else {
        result := result + [PERCENT] + [HexDigit(b as int / 16), HexDigit(b as int % 16)];
      }
    }
    assert value[..|value|] == value;
  }

  /** Reads an encoded text back; nothing but unreserved bytes and upper-case escapes is accepted. */
  function Decode(t: Text): Option<Text>
    decreases |t|
  {
    if t == [] then Some([])
    else if Unreserved(t[0]) then
      var rest := Decode(t[1..]);
      if rest.Some? then Some([t[0]] + rest.value) else None
    else if |t| >= 3 && t[0] == PERCENT && HexValue(t[1]).Some? && HexValue(t[2]).Some? then
      var rest := Decode(t[3..]);
      if rest.Some? then Some([HexValue(t[1]).value * 16 + HexValue(t[2]).value] + rest.value) else None
    else None
  }

  lemma {:induction false} EncodeFront(b: byte, s: Text)
    ensures Encode([b] + s) == EncodeByte(b) + Encode(s)
    decreases |s|
  {
    hide EncodeByte;
    if s == [] {
      assert ([b] + s)[..0] == [] && Encode([]) == [];
    } else {
      var n := |s| - 1;
      assert ([b] + s)[..n + 1] == [b] + s[..n];
      EncodeFront(b, s[..n]);
    }
  }

  lemma DecodeFront(b: byte, t: Text)
    requires Decode(t).Some?
    ensures Decode(EncodeByte(b) + t) == Some([b] + Decode(t).value)
  {
    var code := EncodeByte(b);
    assert (code + t)[|code|..] == t;
  }

  /** Percent-encoding decodes back. */
  lemma {:induction false} DecodeEncode(s: Text)
    ensures Decode(Encode(s)) == Some(s)
    decreases |s|
  {
    hide EncodeByte;
    if s != [] {
      assert s == [s[0]] + s[1..];
      EncodeFront(s[0], s[1..]);
      DecodeEncode(s[1..]);
      DecodeFront(s[0], Encode(s[1..]));
    }
  }

  /** Encoded text never contains a separator. */
  lemma {:induction false} EncodeHasNoSeparators(s: Text)
    ensures EQUALS !in Encode(s) && AMPERSAND !in Encode(s)
    decreases |s|
  {
    if s != [] {
      EncodeHasNoSeparators(s[..|s| - 1]);
    }
  }

  const DIGITS: string := "0123456789ABCDEF"

  /** Letters, digits and ".", "_", "~", "-" stay; every other byte is a percent sign and two upper-case digits. */
  lemma ByteSpelling(b: byte)
    ensures var c := b as char;
            Encode([b]) == if 'A' <= c <= 'Z' || 'a' <= c <= 'z' || '0' <= c <= '9' || c in "._~-" then [b]
                           else ['%' as byte, DIGITS[b as int / 16] as byte, DIGITS[b as int % 16] as byte]
  {
    assert [b][..0] == [] && [b][0] == b;
    assert Encode([b]) == EncodeByte(b);
    DigitSpelling(b as int / 16);
    DigitSpelling(b as int % 16);
  }

  lemma DigitSpelling(d: nat)
    requires d < 16
    ensures HexDigit(d) == DIGITS[d] as byte
  {
  }

  /** Texts are encoded byte by byte. */
  lemma {:induction false} EncodeAppends(a: Text, b: Text)
    ensures Encode(a + b) == Encode(a) + Encode(b)
    decreases |b|
  {
    hide EncodeByte;
    if b == [] {
      assert a + b == a;
    } else {
      var n := |b| - 1;
      assert (a + b)[..|a| + n] == a + b[..n];
      EncodeAppends(a, b[..n]);
    }
  }

  // ----- the order of the sort -----

  datatype Pair = Pair(name: Text, value: Text)

  function TextLeq(a: Text, b: Text): bool
    decreases |a|
  {
    a == [] || (b != [] && (a[0] < b[0] || (a[0] == b[0] && TextLeq(a[1..], b[1..]))))
  }

  /** Equal names are ordered by value. */
  function PairLeq(p: Pair, q: Pair): bool
  {
    if p.name != q.name then TextLeq(p.name, q.name) else TextLeq(p.value, q.value)
  }

  lemma {:induction false} TextIsTotal(a: Text, b: Text)
    ensures TextLeq(a, b) || TextLeq(b, a)
    decreases |a|
  {
    if a != [] && b != [] {
      TextIsTotal(a[1..], b[1..]);
    }
  }

  lemma {:induction false} TextIsAntisymmetric(a: Text, b: Text)
    requires TextLeq(a, b) && TextLeq(b, a)
    ensures a == b
    decreases |a|
  {
    if a != [] {
      TextIsAntisymmetric(a[1..], b[1..]);
      assert a == [a[0]] + a[1..] && b == [b[0]] + b[1..];
    }
  }

  lemma {:induction false} TextIsTransitive(a: Text, b: Text, c: Text)
    requires TextLeq(a, b) && TextLeq(b, c)
    ensures TextLeq(a, c)
    decreases |a|
  {
    if a != [] && a[0] == b[0] == c[0] {
      TextIsTransitive(a[1..], b[1..], c[1..]);
    }
  }

  /** The comparison is a total order, so the sort has only one possible result. */
  lemma PairOrderIsTotal(p: Pair, q: Pair, r: Pair)
    ensures PairLeq(p, q) || PairLeq(q, p)
    ensures PairLeq(p, q) && PairLeq(q, p) ==> p == q
    ensures PairLeq(p, q) && PairLeq(q, r) ==> PairLeq(p, r)
  {
    hide TextLeq;
    TextIsTotal(p.name, q.name);
    TextIsTotal(p.value, q.value);
    if PairLeq(p, q) && PairLeq(q, p) {
      if p.name != q.name {
        TextIsAntisymmetric(p.name, q.name);
      } else {
        TextIsAntisymmetric(p.value, q.value);
      }
    }
    if PairLeq(p, q) && PairLeq(q, r) {
      PairsChain(p, q, r);
    }
  }

  lemma PairsChain(p: Pair, q: Pair, r: Pair)
    requires PairLeq(p, q) && PairLeq(q, r)
    ensures PairLeq(p, r)
  {
    hide TextLeq;
    if p.name == q.name && q.name == r.name {
      TextIsTransitive(p.value, q.value, r.value);
    } else if p.name != q.name && q.name != r.name {
      TextIsTransitive(p.name, q.name, r.name);
      if p.name == r.name {
        TextIsAntisymmetric(p.name, q.name);
      }
    }
  }

  /** Byte order: the beginning of a text comes before it, otherwise the first differing byte decides. */
  ghost predicate Ascends(a: Text, b: Text)
  {
    a <= b || exists k :: 0 <= k < |a| && k < |b| && a[..k] == b[..k] && a[k] < b[k]
  }

  lemma AscendsInTail(a: Text, b: Text)
    requires a != [] && b != [] && Ascends(a, b)
    ensures a[0] < b[0] || (a[0] == b[0] && Ascends(a[1..], b[1..]))
  {
    var s, t := a[1..], b[1..];
    if a <= b {
      assert forall i :: 0 <= i < |s| ==> s[i] == a[i + 1] == b[i + 1] == t[i];
    } else {
      var k :| 0 <= k < |a| && k < |b| && a[..k] == b[..k] && a[k] < b[k];
      if k > 0 {
        assert forall i :: 0 <= i < k ==> a[..k][i] == b[..k][i];
        assert s[..k - 1] == t[..k - 1] && s[k - 1] < t[k - 1];
      }
    }
  }

  lemma TailAscends(x: byte, s: Text, t: Text)
    requires Ascends(s, t)
    ensures Ascends([x] + s, [x] + t)
  {
    var a, b := [x] + s, [x] + t;
    if s <= t {
      assert forall i :: 0 <= i < |a| ==> a[i] == b[i];
    } else {
      var k :| 0 <= k < |s| && k < |t| && s[..k] == t[..k] && s[k] < t[k];
      assert a[..k + 1] == [x] + s[..k] && b[..k + 1] == [x] + t[..k];
      assert a[k + 1] < b[k + 1];
    }
  }

  /** The recursive comparison is byte order. */
  lemma {:induction false} TextOrderIsByteOrder(a: Text, b: Text)
    ensures TextLeq(a, b) <==> Ascends(a, b)
    decreases |a|
  {
    hide Ascends;
    if a == [] || b == [] {
      OrderOfEmpty(a, b);
    } else {
      TextOrderIsByteOrder(a[1..], b[1..]);
      if Ascends(a, b) {
        AscendsInTail(a, b);
      }
      if a[0] < b[0] {
        SmallerHead(a, b);
      } else if a[0] == b[0] && Ascends(a[1..], b[1..]) {
        assert a == [a[0]] + a[1..] && b == [a[0]] + b[1..];
        TailAscends(a[0], a[1..], b[1..]);
      }
    }
  }

  lemma SmallerHead(a: Text, b: Text)
    requires a != [] && b != [] && a[0] < b[0]
    ensures Ascends(a, b)
  {
    assert a[..0] == b[..0];
  }

  lemma OrderOfEmpty(a: Text, b: Text)
    requires a == [] || b == []
    ensures Ascends(a, b) <==> a == []
  {
  }

  predicate IsSorted(ps: seq<Pair>)
  {
    forall i, j :: 0 <= i < j < |ps| ==> PairLeq(ps[i], ps[j])
  }

  function Insert(ps: seq<Pair>, p: Pair): seq<Pair>
  {
    if ps == [] || PairLeq(ps[|ps| - 1], p) then ps + [p]
    else Insert(ps[..|ps| - 1], p) + [ps[|ps| - 1]]
  }

  function Sort(ps: seq<Pair>): seq<Pair>
  {
    if ps == [] then [] else Insert(Sort(ps[..|ps| - 1]), ps[|ps| - 1])
  }

  lemma {:induction false} InsertSorts(ps: seq<Pair>, p: Pair)
    requires IsSorted(ps)
    ensures IsSorted(Insert(ps, p)) && multiset(Insert(ps, p)) == multiset(ps) + multiset{p}
    decreases |ps|
  {
    hide PairLeq;
    if ps != [] {
      var init, last := ps[..|ps| - 1], ps[|ps| - 1];
      assert ps == init + [last];
      if PairLeq(last, p) {
        forall i | 0 <= i < |ps|
          ensures PairLeq(ps[i], p)
        {
          PairOrderIsTotal(ps[i], last, p);
        }
      } else {
        InsertSorts(init, p);
        PairOrderIsTotal(last, p, p);
        forall q | q in Insert(init, p)
          ensures PairLeq(q, last)
        {
          assert q in multiset(Insert(init, p));
          assert q in init || q == p;
        }
      }
    }
  }

  lemma {:induction false} SortSorts(ps: seq<Pair>)
    ensures IsSorted(Sort(ps)) && multiset(Sort(ps)) == multiset(ps)
    decreases |ps|
  {
    hide PairLeq, Insert;
    if ps != [] {
      var init, last := ps[..|ps| - 1], ps[|ps| - 1];
      assert ps == init + [last];
      SortSorts(init);
      InsertSorts(Sort(init), last);
    }
  }

  lemma WithoutLast(ps: seq<Pair>)
    requires IsSorted(ps) && ps != []
    ensures var n := |ps| - 1; IsSorted(ps[..n]) && multiset(ps[..n]) == multiset(ps) - multiset{ps[n]}
  {
    hide PairLeq;
    assert ps == ps[..|ps| - 1] + [ps[|ps| - 1]];
  }

  lemma SameLast(a: seq<Pair>, b: seq<Pair>)
    requires IsSorted(a) && IsSorted(b) && multiset(a) == multiset(b) && a != [] && b != []
    ensures a[|a| - 1] == b[|b| - 1]
  {
    hide PairLeq, IsSorted;
    var p, q := a[|a| - 1], b[|b| - 1];
    assert p in multiset(b) && q in multiset(a);
    Lasts(a, q);
    Lasts(b, p);
    PairOrderIsTotal(p, q, q);
  }

  lemma {:induction false} SortedIsUnique(a: seq<Pair>, b: seq<Pair>)
    requires IsSorted(a) && IsSorted(b) && multiset(a) == multiset(b)
    ensures a == b
    decreases |a|
  {
    hide PairLeq, IsSorted;
    assert |a| == |multiset(a)| == |multiset(b)| == |b|;
    if a != [] {
      var n := |a| - 1;
      SameLast(a, b);
      WithoutLast(a);
      WithoutLast(b);
      SortedIsUnique(a[..n], b[..n]);
      assert a == a[..n] + [a[n]] && b == b[..n] + [b[n]];
    }
  }

  lemma Lasts(ps: seq<Pair>, p: Pair)
    requires IsSorted(ps) && p in ps
    ensures PairLeq(p, ps[|ps| - 1])
  {
    hide TextLeq;
    var i :| 0 <= i < |ps| && ps[i] == p;
    PairOrderIsTotal(p, p, p);
  }

  // ----- joining -----

  function Joined(p: Pair): Text
  {
    p.name + [EQUALS] + p.value
  }

  function Join(ps: seq<Pair>): Text
  {
    if ps == [] then []
    else if |ps| == 1 then Joined(ps[0])
    else Joined(ps[0]) + [AMPERSAND] + Join(ps[1..])
  }

  predicate Plain(t: Text)
  {
    EQUALS !in t && AMPERSAND !in t
  }

  predicate AllPlain(ps: seq<Pair>)
  {
    forall p :: p in ps ==> Plain(p.name) && Plain(p.value)
  }

  lemma PlainInside(w: Text, a: Text, s: Text, k: nat)
    requires w == a + s && Plain(a) && k < |a|
    ensures w[k] != EQUALS && w[k] != AMPERSAND
  {
    assert w[k] == a[k];
  }

  /** The first separator after a plain text is at its end. */
  lemma PlainPrefix(a: Text, x: byte, s: Text, b: Text, y: byte, t: Text)
    requires Plain(a) && Plain(b) && (x == EQUALS || x == AMPERSAND) && (y == EQUALS || y == AMPERSAND)
    requires a + [x] + s == b + [y] + t
    ensures a == b && x == y && s == t
  {
    hide Plain;
    var w := a + [x] + s;
    assert w == a + ([x] + s) && w == b + ([y] + t);
    assert w[|a|] == x && w[|b|] == y;
    if |a| < |b| {
      PlainInside(w, b, [y] + t, |a|);
    } else if |b| < |a| {
      PlainInside(w, a, [x] + s, |b|);
    } else {
      assert w[..|a|] == a && w[..|b|] == b;
      assert w[|a| + 1..] == s && w[|b| + 1..] == t;
    }
  }

  lemma PlainWhole(a: Text, b: Text, y: byte, t: Text)
    requires Plain(a) && (y == EQUALS || y == AMPERSAND)
    ensures a != b + [y] + t
  {
    assert (b + [y] + t)[|b|] == y;
  }

  /** What follows the first '=' of a joined list. */
  function Tail(ps: seq<Pair>): Text
    requires ps != []
  {
    if |ps| == 1 then ps[0].value else ps[0].value + [AMPERSAND] + Join(ps[1..])
  }

  lemma Regroup(name: Text, value: Text, rest: Text)
    ensures name + [EQUALS] + value + [AMPERSAND] + rest == name + [EQUALS] + (value + [AMPERSAND] + rest)
  {
  }

  lemma JoinSplits(ps: seq<Pair>)
    requires ps != []
    ensures Join(ps) == ps[0].name + [EQUALS] + Tail(ps)
  {
    if |ps| > 1 {
      Regroup(ps[0].name, ps[0].value, Join(ps[1..]));
    }
  }

  lemma EmptyJoins(ps: seq<Pair>)
    ensures Join(ps) == [] <==> ps == []
  {
    if ps != [] {
      JoinSplits(ps);
    }
  }

  lemma {:induction false} JoinIsInjective(a: seq<Pair>, b: seq<Pair>)
    requires AllPlain(a) && AllPlain(b) && Join(a) == Join(b)
    ensures a == b
    decreases |a|
  {
    hide Plain, Join;
    EmptyJoins(a);
    EmptyJoins(b);
    if a != [] && b != [] {
      JoinSplits(a);
      JoinSplits(b);
      PlainPrefix(a[0].name, EQUALS, Tail(a), b[0].name, EQUALS, Tail(b));
      if |a| > 1 && |b| > 1 {
        PlainPrefix(a[0].value, AMPERSAND, Join(a[1..]), b[0].value, AMPERSAND, Join(b[1..]));
        JoinIsInjective(a[1..], b[1..]);
        assert a == [a[0]] + a[1..] && b == [b[0]] + b[1..];
      } else if |a| > 1 {
        PlainWhole(b[0].value, a[0].value, AMPERSAND, Join(a[1..]));
      } else if |b| > 1 {
        PlainWhole(a[0].value, b[0].value, AMPERSAND, Join(b[1..]));
      }
    }
  }

  // ----- the whole string -----

  function EncodePair(p: Pair): Pair
  {
    Pair(Encode(p.name), Encode(p.value))
  }

  function EncodeAll(ps: seq<Pair>): seq<Pair>
  {
    if ps == [] then [] else EncodeAll(ps[..|ps| - 1]) + [EncodePair(ps[|ps| - 1])]
  }

  /** `canonicalQuery` of the parameters of a URL, in the order they appear. */
  function CanonicalQuery(params: seq<Pair>): Text
  {
    Join(Sort(EncodeAll(params)))
  }

  /** The pipeline as written: encode each parameter, sort the list, join it. */
  method BuildCanonicalQuery(params: seq<Pair>) returns (query: Text)
    ensures query == CanonicalQuery(params)
  {
    hide Insert, Encode;
    var encoded: seq<Pair> := [];
    for i := 0 to |params|
      invariant encoded == EncodeAll(params[..i])
    {
      assert params[..i + 1][..i] == params[..i];
      var name := AwsUriEncode(params[i].name);
      var value := AwsUriEncode(params[i].value);
      encoded := encoded + [Pair(name, value)];
    }
    assert params[..|params|] == params;
    var sorted: seq<Pair> := [];
    for i := 0 to |encoded|
      invariant sorted == Sort(encoded[..i])
    {
      assert encoded[..i + 1][..i] == encoded[..i];
      sorted := Insert(sorted, encoded[i]);
    }
    assert encoded[..|encoded|] == encoded;
    query := Join(sorted);
  }

  lemma EncodePairIsInjective(p: Pair, q: Pair)
    requires EncodePair(p) == EncodePair(q)
    ensures p == q
  {
    DecodeEncode(p.name);
    DecodeEncode(q.name);
    DecodeEncode(p.value);
    DecodeEncode(q.value);
  }

  /** Encoding keeps the number of copies of every parameter. */
  lemma {:induction false} EncodeAllCounts(ps: seq<Pair>, p: Pair)
    ensures multiset(EncodeAll(ps))[EncodePair(p)] == multiset(ps)[p]
    decreases |ps|
  {
    hide EncodePair;
    if ps != [] {
      var init, last := ps[..|ps| - 1], ps[|ps| - 1];
      assert ps == init + [last];
      EncodeAllCounts(init, p);
      if EncodePair(last) == EncodePair(p) {
        EncodePairIsInjective(last, p);
      }
    }
  }

  lemma {:induction false} EncodedFrom(ps: seq<Pair>, q: Pair) returns (p: Pair)
    requires q in EncodeAll(ps)
    ensures p in ps && EncodePair(p) == q
    decreases |ps|
  {
    var init, last := ps[..|ps| - 1], ps[|ps| - 1];
    if q in EncodeAll(init) {
      p := EncodedFrom(init, q);
    } else {
      p := last;
    }
  }

  lemma EncodedIsPlain(ps: seq<Pair>)
    ensures AllPlain(Sort(EncodeAll(ps)))
  {
    hide Sort, Encode, EncodeAll;
    SortSorts(EncodeAll(ps));
    forall q | q in Sort(EncodeAll(ps))
      ensures Plain(q.name) && Plain(q.value)
    {
      assert q in multiset(Sort(EncodeAll(ps)));
      var p := EncodedFrom(ps, q);
      EncodeHasNoSeparators(p.name);
      EncodeHasNoSeparators(p.value);
    }
  }

  lemma SameParameters(a: seq<Pair>, b: seq<Pair>)
    requires multiset(a) == multiset(b)
    ensures multiset(EncodeAll(a)) == multiset(EncodeAll(b))
  {
    hide EncodeAll, EncodePair;
    forall q | q in EncodeAll(a) || q in EncodeAll(b)
      ensures multiset(EncodeAll(a))[q] == multiset(EncodeAll(b))[q]
    {
      var p;
      if q in EncodeAll(a) {
        p := EncodedFrom(a, q);
      } else {
        p := EncodedFrom(b, q);
      }
      EncodeAllCounts(a, p);
      EncodeAllCounts(b, p);
    }
    CountsDecide(EncodeAll(a), EncodeAll(b));
  }

  lemma CountsDecide(a: seq<Pair>, b: seq<Pair>)
    requires forall q :: q in a || q in b ==> multiset(a)[q] == multiset(b)[q]
    ensures multiset(a) == multiset(b)
  {
    forall q
      ensures multiset(a)[q] == multiset(b)[q]
    {
      assert (q in multiset(a) <==> q in a) && (q in multiset(b) <==> q in b);
    }
  }

  lemma SameEncoded(a: seq<Pair>, b: seq<Pair>)
    requires multiset(EncodeAll(a)) == multiset(EncodeAll(b))
    ensures multiset(a) == multiset(b)
  {
    hide EncodeAll, EncodePair;
    forall p | p in a || p in b
      ensures multiset(a)[p] == multiset(b)[p]
    {
      EncodeAllCounts(a, p);
      EncodeAllCounts(b, p);
    }
    CountsDecide(a, b);
  }

  /** Two URLs get the same canonical query string exactly when they have the same parameters, copies counted. */
  lemma SameStringIffSameParameters(a: seq<Pair>, b: seq<Pair>)
    ensures CanonicalQuery(a) == CanonicalQuery(b) <==> multiset(a) == multiset(b)
  {
    hide Sort, EncodeAll, Join, IsSorted, AllPlain;
    SortSorts(EncodeAll(a));
    SortSorts(EncodeAll(b));
    if CanonicalQuery(a) == CanonicalQuery(b) {
      EncodedIsPlain(a);
      EncodedIsPlain(b);
      JoinIsInjective(Sort(EncodeAll(a)), Sort(EncodeAll(b)));
      SameEncoded(a, b);
    }
    if multiset(a) == multiset(b) {
      SameParameters(a, b);
      SortedIsUnique(Sort(EncodeAll(a)), Sort(EncodeAll(b)));
    }
  }

  /** A pair comes before another by name, or by value under the same name. */
  ghost predicate Precedes(p: Pair, q: Pair)
  {
    (p.name != q.name && Ascends(p.name, q.name)) || (p.name == q.name && Ascends(p.value, q.value))
  }

  lemma PairOrderIsByteOrder(p: Pair, q: Pair)
    ensures PairLeq(p, q) <==> Precedes(p, q)
  {
    hide TextLeq, Ascends;
    TextOrderIsByteOrder(p.name, q.name);
    TextOrderIsByteOrder(p.value, q.value);
  }

  /** The string joins the encoded parameters, each as often as it was given, in ascending byte order. */
  lemma QueryAscends(params: seq<Pair>) returns (sorted: seq<Pair>)
    ensures CanonicalQuery(params) == Join(sorted)
    ensures multiset(sorted) == multiset(EncodeAll(params))
    ensures forall i, j :: 0 <= i < j < |sorted| ==> Precedes(sorted[i], sorted[j])
  {
    hide PairLeq, Precedes, Sort, EncodeAll, Join;
    sorted := Sort(EncodeAll(params));
    SortSorts(EncodeAll(params));
    forall i, j | 0 <= i < j < |sorted|
      ensures Precedes(sorted[i], sorted[j])
    {
      PairOrderIsByteOrder(sorted[i], sorted[j]);
    }
  }

  /** Two parameters in either order of the URL: the smaller encoded one comes first, written name=value&name=value. */
  lemma TwoParameters(p: Pair, q: Pair)
    requires Precedes(EncodePair(p), EncodePair(q))
    ensures CanonicalQuery([p, q]) == CanonicalQuery([q, p])
         == Encode(p.name) + [0x3d] + Encode(p.value) + [0x26] + Encode(q.name) + [0x3d] + Encode(q.value)
  {
    hide Encode, PairLeq, Precedes;
    var a, b := EncodePair(p), EncodePair(q);
    PairOrderIsByteOrder(a, b);
    PairOrderIsTotal(a, b, b);
    EncodeTwo(p, q);
    EncodeTwo(q, p);
    SortTwo(a, b);
    assert [a, b][1..] == [b];
    assert Join([a, b]) == Joined(a) + [AMPERSAND] + Joined(b);
    assert Joined(a) + [AMPERSAND] + Joined(b)
        == a.name + [0x3d] + a.value + [0x26] + b.name + [0x3d] + b.value;
  }

  lemma EncodeTwo(p: Pair, q: Pair)
    ensures EncodeAll([p, q]) == [EncodePair(p), EncodePair(q)]
  {
    hide EncodePair;
    assert [p, q][..1] == [p] && [p][..0] == [];
    assert EncodeAll([p]) == [EncodePair(p)];
  }

  lemma SortTwo(a: Pair, b: Pair)
    requires PairLeq(a, b)
    ensures Sort([a, b]) == Sort([b, a]) == [a, b]
  {
    hide PairLeq;
    PairOrderIsTotal(a, b, b);
    InsertOne(a, b);
    InsertOne(b, a);
    SortOne(a, b);
    SortOne(b, a);
    if PairLeq(b, a) {
      assert a == b;
    }
  }

  lemma InsertOne(a: Pair, b: Pair)
    ensures Insert([a], b) == if PairLeq(a, b) then [a, b] else [b, a]
  {
    hide PairLeq;
    assert [a][..0] == [];
  }

  lemma SortOne(a: Pair, b: Pair)
    ensures Sort([a, b]) == Insert([a], b)
  {
    hide PairLeq;
    assert [a, b][..1] == [a] && [a][..0] == [];
    assert Sort([]) == [];
    assert Sort([a]) == [a];
  }
}
