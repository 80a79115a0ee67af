/** Percent-encoding of query components (sections 2.1 and 2.3 of RFC 3986), the query string
    as a list of pairs, and the reference reader that takes it apart again. */
module Percent {
  import opened Basics

  const AMP: Byte := 38       // '&'
  const EQUALS: Byte := 61    // '='
  const PERCENT: Byte := 37   // '%'

  /** The unreserved characters, and the comma. */
  predicate UrlSafe(b: Byte) {
    65 <= b <= 90 || 97 <= b <= 122 || 48 <= b <= 57 || b in {45, 46, 95, 126, 44}
  }

  function Hex(n: nat): Byte
    requires n < 16
  {
    if n < 10 then 48 + n else 55 + n
  }

  function EncodeByte(b: Byte): Bytes {
    if UrlSafe(b) then [b] else [PERCENT, Hex(b / 16), Hex(b % 16)]
  }

  function Encode(s: Bytes): Bytes {
    if s == [] then [] else EncodeByte(s[0]) + Encode(s[1..])
  }

  function PairText(p: (Bytes, Bytes)): Bytes { Encode(p.0) + [EQUALS] + Encode(p.1) }

  /** The query the builder has produced after setting these pairs in order. */
  function Query(ps: seq<(Bytes, Bytes)>): Bytes {
    if ps == [] then []
    else if |ps| == 1 then PairText(ps[0])
    else Query(ps[..|ps| - 1]) + [AMP] + PairText(ps[|ps| - 1])
  }

  // ---------------------------------------------------------------- the reader

  function Decode(s: Bytes): Option<Bytes> {
    if s == [] then Some([])
    else if s[0] != PERCENT then
      (match Decode(s[1..]) case None => None case Some(r) => Some([s[0]] + r))
    else if |s| < 3 || HexValue(s[1]).None? || HexValue(s[2]).None? then None
    else
      match Decode(s[3..])
      case None => None
      case Some(r) => Some([16 * HexValue(s[1]).value + HexValue(s[2]).value] + r)
  }

  /** Position of the first `c`, or the length. */
  function Find(s: Bytes, c: Byte): (i: nat)
    ensures i <= |s| && c !in s[..i] && (i < |s| ==> s[i] == c)
  {
    if s == [] || s[0] == c then 0 else 1 + Find(s[1..], c)
  }

  /** The fields between ampersands. */
  function Fields(q: Bytes): seq<Bytes>
    decreases |q|
  {
    var i := Find(q, AMP);
    if i == |q| then [q] else [q[..i]] + Fields(q[i + 1..])
  }

  /** One field, split at its first equals sign and decoded on both sides. */
  function ReadField(f: Bytes): Option<(Bytes, Bytes)> {
    var i := Find(f, EQUALS);
    if i == |f| then None
    else
      match (Decode(f[..i]), Decode(f[i + 1..]))
      case (Some(k), Some(v)) => Some((k, v))
      case _ => None
  }

  function ReadFields(fs: seq<Bytes>): Option<seq<(Bytes, Bytes)>> {
    if fs == [] then Some([])
    else
      match (ReadFields(fs[..|fs| - 1]), ReadField(fs[|fs| - 1]))
      case (Some(ps), Some(p)) => Some(ps + [p])
      case _ => None
  }

  function ReadQuery(q: Bytes): Option<seq<(Bytes, Bytes)>> {
    if q == [] then Some([]) else ReadFields(Fields(q))
  }

  // ---------------------------------------------------------------- round trip

  lemma {:induction false} DecodeEncode(s: Bytes)
    ensures Decode(Encode(s)) == Some(s)
  {
    if s != [] {
      DecodeEncode(s[1..]);
      var e, rest := EncodeByte(s[0]), Encode(s[1..]);
      assert (e + rest)[|e|..] == rest;
      assert [s[0]] + s[1..] == s;
    }
  }

  /** A letter, a digit, a hyphen, a point, an underscore, a tilde or a comma. */
  predicate Plain(b: Byte) {
    65 <= b <= 90 || 97 <= b <= 122 || 48 <= b <= 57 || b == 45 || b == 46 || b == 95 || b == 126 || b == 44
  }

  /** Digits and upper-case letters up to F. */
  function UpperDigit(n: nat): nat { if n < 10 then 48 + n else 55 + n }

  /** An encoded component is made of plain characters and percent signs, so it holds neither
      a separator nor a terminator. */
  lemma {:induction false} EncodedBytes(s: Bytes)
    ensures forall c :: c in Encode(s) ==> Plain(c) || c == 37
    ensures 38 !in Encode(s) && 61 !in Encode(s) && 0 !in Encode(s)
    ensures |s| <= |Encode(s)| <= 3 * |s|
  {
    if s != [] { EncodedBytes(s[1..]); }
  }

  /** Which bytes cross as they are and what becomes of the others: a percent sign and two
      upper-case digits. */
  lemma EncodedLiterally(s: Bytes, b: Byte)
    ensures Encode([b] + s) == (if Plain(b) then [b] else [37, UpperDigit(b / 16), UpperDigit(b % 16)]) + Encode(s)
  {
    assert ([b] + s)[1..] == s;
  }

  /** The query is the pairs in order, each key and its value around an equals sign, with an
      ampersand between pairs. */
  lemma QueryLayout(ps: seq<(Bytes, Bytes)>, p: (Bytes, Bytes))
    ensures Query([]) == []
    ensures Query(ps + [p]) == (if ps == [] then [] else Query(ps) + [38]) + (Encode(p.0) + [61] + Encode(p.1))
  {
    var qs := ps + [p];
    assert qs[..|qs| - 1] == ps && qs[|qs| - 1] == p;
  }

  lemma {:induction false} FindAt(s: Bytes, c: Byte, i: nat)
    requires i <= |s| && c !in s[..i] && (i < |s| ==> s[i] == c)
    ensures Find(s, c) == i
  {
    if i > 0 {
      assert s[0] == s[..i][0] && s[1..][..i - 1] == s[..i][1..];
      FindAt(s[1..], c, i - 1);
    }
  }

  lemma PairBytes(p: (Bytes, Bytes))
    ensures AMP !in PairText(p) && 0 !in PairText(p) && |PairText(p)| > 0
  {
    EncodedBytes(p.0);
    EncodedBytes(p.1);
  }

  lemma ReadPair(p: (Bytes, Bytes))
    ensures ReadField(PairText(p)) == Some(p)
  {
    EncodedBytes(p.0);
    DecodeEncode(p.0);
    DecodeEncode(p.1);
    var k, v := Encode(p.0), Encode(p.1);
    var f := PairText(p);
    assert f[..|k|] == k && f[|k|] == EQUALS && f[|k| + 1..] == v;
    FindAt(f, EQUALS, |k|);
  }

  lemma SingleField(b: Bytes)
    requires AMP !in b
    ensures Fields(b) == [b]
  {
    assert b[..|b|] == b;
    FindAt(b, AMP, |b|);
  }

  /** The first field of a text whose first ampersand is known. */
  lemma FirstField(q: Bytes, head: Bytes, tail: Bytes)
    requires AMP !in head && q == head + [AMP] + tail
    ensures Fields(q) == [head] + Fields(tail)
  {
    assert q[..|head|] == head && q[|head|] == AMP && q[|head| + 1..] == tail;
    FindAt(q, AMP, |head|);
  }

  lemma SplitFirst(a: Bytes, i: nat, b: Bytes)
    requires i < |a| && a[i] == AMP
    ensures a == a[..i] + [AMP] + a[i + 1..]
    ensures a + [AMP] + b == a[..i] + [AMP] + (a[i + 1..] + [AMP] + b)
  {
  }

  lemma {:induction false} FieldsAppend(a: Bytes, b: Bytes)
    requires AMP !in b
    ensures Fields(a + [AMP] + b) == Fields(a) + [b]
    decreases |a|
  {
    var i := Find(a, AMP);
    if i < |a| {
      var head, rest := a[..i], a[i + 1..];
      FieldsAppend(rest, b);
      SplitFirst(a, i, b);
      FirstField(a + [AMP] + b, head, rest + [AMP] + b);
      FirstField(a, head, rest);
      assert [head] + (Fields(rest) + [b]) == [head] + Fields(rest) + [b];
    } else {
      assert a[..|a|] == a;
      SingleField(a);
      SingleField(b);
      FirstField(a + [AMP] + b, a, b);
    }
  }

  /** The fields of the query are the texts of the pairs, in order. */
  function Texts(ps: seq<(Bytes, Bytes)>): seq<Bytes> {
    if ps == [] then [] else Texts(ps[..|ps| - 1]) + [PairText(ps[|ps| - 1])]
  }

  lemma {:induction false} FieldsOfQuery(ps: seq<(Bytes, Bytes)>)
    requires ps != []
    ensures Query(ps) != [] && Fields(Query(ps)) == Texts(ps)
  {
    var init, last := ps[..|ps| - 1], ps[|ps| - 1];
    PairBytes(last);
    if |ps| == 1 {
      assert Query(ps)[..|Query(ps)|] == Query(ps);
      FindAt(Query(ps), AMP, |Query(ps)|);
      assert Texts(init) == [];
    } else {
      FieldsOfQuery(init);
      FieldsAppend(Query(init), PairText(last));
    }
  }

  lemma {:induction false} TextsAt(ps: seq<(Bytes, Bytes)>)
    ensures |Texts(ps)| == |ps| && forall i :: 0 <= i < |ps| ==> Texts(ps)[i] == PairText(ps[i])
  {
    if ps != [] { TextsAt(ps[..|ps| - 1]); }
  }

  /** Fields that read as the pairs, one by one, read as the list of pairs. */
  lemma {:induction false} ReadEach(fs: seq<Bytes>, ps: seq<(Bytes, Bytes)>)
    requires |fs| == |ps| && forall i :: 0 <= i < |fs| ==> ReadField(fs[i]) == Some(ps[i])
    ensures ReadFields(fs) == Some(ps)
  {
    if fs != [] {
      var n := |fs| - 1;
      ReadEach(fs[..n], ps[..n]);
      assert ps[..n] + [ps[n]] == ps;
    }
  }

  lemma ReadTexts(ps: seq<(Bytes, Bytes)>)
    ensures ReadFields(Texts(ps)) == Some(ps)
  {
    TextsAt(ps);
    forall i | 0 <= i < |ps| ensures ReadField(Texts(ps)[i]) == Some(ps[i]) {
      ReadPair(ps[i]);
    }
    ReadEach(Texts(ps), ps);
  }

  /** Taking the query apart gives back exactly the pairs that were set, in order, for any
      bytes on either side, the empty string included. */
  lemma QueryRoundTrip(ps: seq<(Bytes, Bytes)>)
    ensures ReadQuery(Query(ps)) == Some(ps)
  {
    if ps != [] {
      FieldsOfQuery(ps);
      ReadTexts(ps);
    }
  }

  // ---------------------------------------------------------------- what the builder's loops use

  lemma {:induction false} EncodeConcat(a: Bytes, b: Bytes)
    ensures Encode(a + b) == Encode(a) + Encode(b)
  {
    if a == [] {
      assert a + b == b;
    } else {
      assert (a + b)[1..] == a[1..] + b;
      EncodeConcat(a[1..], b);
    }
  }

  /** One more byte encoded. */
  lemma EncodeNext(s: Bytes, i: nat)
    requires i < |s|
    ensures Encode(s[..i + 1]) == Encode(s[..i]) + EncodeByte(s[i])
  {
    assert s[..i + 1] == s[..i] + [s[i]];
    EncodeConcat(s[..i], [s[i]]);
    assert [s[i]][1..] == [];
  }

  /** A prefix never encodes longer than the whole. */
  lemma EncodePrefix(s: Bytes, i: nat)
    requires i <= |s|
    ensures |Encode(s[..i])| <= |Encode(s)|
    ensures i < |s| ==> |Encode(s[..i])| + |EncodeByte(s[i])| <= |Encode(s)|
  {
    assert s == s[..i] + s[i..];
    EncodeConcat(s[..i], s[i..]);
    if i < |s| { assert Encode(s[i..]) == EncodeByte(s[i]) + Encode(s[i..][1..]); }
  }

  lemma {:induction false} QueryBytes(ps: seq<(Bytes, Bytes)>)
    ensures 0 !in Query(ps) && (ps == [] <==> Query(ps) == [])
  {
    if ps != [] {
      PairBytes(ps[|ps| - 1]);
      if |ps| > 1 { QueryBytes(ps[..|ps| - 1]); }
    }
  }
}
