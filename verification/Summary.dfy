/** The JSON side of the summary (loop/summary.c): the string escaper and the array of
    worker errors, against a reader of string literals written from section 7 of RFC 8259. */
module Summary {
  import opened Basics

  // ---------------------------------------------------------------- the reader

  function HexQuad(t: Bytes): (cp: Option<nat>)
    requires |t| == 4
    ensures cp.Some? ==> cp.value < 0x1_0000
  {
    if HexValue(t[0]).None? || HexValue(t[1]).None? || HexValue(t[2]).None? || HexValue(t[3]).None? then None
    else Some(((HexValue(t[0]).value * 16 + HexValue(t[1]).value) * 16 + HexValue(t[2]).value) * 16
              + HexValue(t[3]).value)
  }

  /** UTF-8 of a code point of the basic plane. */
  function Utf8(cp: nat): Bytes
    requires cp < 0x1_0000
  {
    if cp < 0x80 then [cp]
    else if cp < 0x800 then [0xC0 + cp / 64, 0x80 + cp % 64]
    else [0xE0 + cp / 4096, 0x80 + cp / 64 % 64, 0x80 + cp % 64]
  }

  /** The two-character escapes. */
  function ShortEscape(c: Byte): Option<Byte> {
    if c == 0x22 || c == 0x5C || c == 0x2F then Some(c)
    else if c == 0x62 then Some(8)
    else if c == 0x66 then Some(12)
    else if c == 0x6E then Some(10)
    else if c == 0x72 then Some(13)
    else if c == 0x74 then Some(9)
    else None
  }

  /** The rest of a literal behind its opening quote: its content and what follows the
      closing quote, or None where the grammar is violated. */
  function ReadBody(t: Bytes): (r: Option<(Bytes, Bytes)>)
    ensures r.Some? ==> |r.value.1| < |t|
  {
    if t == [] then None
    else if t[0] == 0x22 then Some(([], t[1..]))
    else if t[0] == 0x5C then
      if |t| >= 2 && ShortEscape(t[1]).Some? then Prepend([ShortEscape(t[1]).value], ReadBody(t[2..]))
      else if |t| >= 6 && t[1] == 0x75 && HexQuad(t[2..6]).Some? then
        Prepend(Utf8(HexQuad(t[2..6]).value), ReadBody(t[6..]))
      else None
    else if t[0] < 0x20 then None
    else Prepend([t[0]], ReadBody(t[1..]))
  }

  function Prepend(p: Bytes, r: Option<(Bytes, Bytes)>): Option<(Bytes, Bytes)> {
    if r.None? then None else Some((p + r.value.0, r.value.1))
  }

  function ReadLiteral(t: Bytes): (r: Option<(Bytes, Bytes)>)
    ensures r.Some? ==> |r.value.1| < |t|
  {
    if t != [] && t[0] == 0x22 then ReadBody(t[1..]) else None
  }

  /** Consecutive literals up to the end of the text. */
  function ReadAll(t: Bytes): Option<seq<Bytes>>
    decreases |t|
  {
    if t == [] then Some([])
    else if ReadLiteral(t).None? then None
    else
      var rest := ReadAll(ReadLiteral(t).value.1);
      if rest.None? then None else Some([ReadLiteral(t).value.0] + rest.value)
  }

  /** The elements of an array of strings, from the first element on. */
  function ReadElements(t: Bytes): Option<(seq<Bytes>, Bytes)>
    decreases |t|
  {
    if ReadLiteral(t).None? then None
    else
      var (s, rest) := ReadLiteral(t).value;
      if rest == [] then None
      else if rest[0] == 0x5D then Some(([s], rest[1..]))
      else if rest[0] != 0x2C then None
      else
        var more := ReadElements(rest[1..]);
        if more.None? then None else Some(([s] + more.value.0, more.value.1))
  }

  function ReadArray(t: Bytes): Option<(seq<Bytes>, Bytes)> {
    if t == [] || t[0] != 0x5B then None
    else if |t| >= 2 && t[1] == 0x5D then Some(([], t[2..]))
    else ReadElements(t[1..])
  }

  // ---------------------------------------------------------------- the writer

  const QUOTE: Byte := 0x22
  const BACKSLASH: Byte := 0x5C
  const COMMA: Byte := 0x2C
  const OPEN: Byte := 0x5B
  const CLOSE: Byte := 0x5D

  /** `%04x` of a control character, behind the two characters that announce it. */
  function HexDigit(d: nat): Byte
    requires d < 16
  {
    if d < 10 then 48 + d else 87 + d
  }

  function EscapeByte(c: Byte): Bytes {
    if c == QUOTE then [BACKSLASH, QUOTE]
    else if c == BACKSLASH then [BACKSLASH, BACKSLASH]
    else if c == 10 then [BACKSLASH, 0x6E]
    else if c == 13 then [BACKSLASH, 0x72]
    else if c == 9 then [BACKSLASH, 0x74]
    else if c < 0x20 then [BACKSLASH, 0x75, 48, 48, HexDigit(c / 16), HexDigit(c % 16)]
    else [c]
  }

  function Escape(s: Bytes): Bytes {
    if s == [] then [] else EscapeByte(s[0]) + Escape(s[1..])
  }

  /** What becomes of each byte: quote and backslash behind a backslash, the three common control
      characters as letters, the others as four lower-case hexadecimal digits, the rest as it is. */
  lemma EscapedLiterally(c: Byte, s: Bytes)
    ensures Escape([c] + s) ==
            (if c == 34 || c == 92 then [92, c]
             else if c == 10 || c == 13 || c == 9 then [92, if c == 10 then 110 else if c == 13 then 114 else 116]
             else if c >= 32 then [c]
             else [92, 117, 48, 48, 48 + c / 16, if c % 16 < 10 then 48 + c % 16 else 87 + c % 16]) + Escape(s)
  {
    assert ([c] + s)[1..] == s;
  }

  function Literal(s: Bytes): Bytes { [QUOTE] + Escape(s) + [QUOTE] }

  lemma {:induction false} EscapeAppend(s: Bytes, c: Byte)
    ensures Escape(s + [c]) == Escape(s) + EscapeByte(c)
  {
    if s == [] {
      assert [c][1..] == [];
    } else {
      assert (s + [c])[1..] == s[1..] + [c];
      EscapeAppend(s[1..], c);
    }
  }

  /** One escaped byte is read as that byte, whatever follows. */
  lemma ReadEscaped(c: Byte, tail: Bytes)
    ensures ReadBody(EscapeByte(c) + tail) == Prepend([c], ReadBody(tail))
  {
    var e := EscapeByte(c);
    var t := e + tail;
    assert t[|e|..] == tail;
    if c < 0x20 && c != 10 && c != 13 && c != 9 {
      assert t[2..6] == [48, 48, HexDigit(c / 16), HexDigit(c % 16)];
      assert HexQuad(t[2..6]) == Some(c);
      assert ShortEscape(t[1]).None?;
    }
  }

  lemma {:induction false} ReadEscape(s: Bytes, rest: Bytes)
    ensures ReadBody(Escape(s) + [QUOTE] + rest) == Some((s, rest))
  {
    if s == [] {
      assert Escape(s) + [QUOTE] + rest == [QUOTE] + rest;
    } else {
      var tail := Escape(s[1..]) + [QUOTE] + rest;
      assert Escape(s) + [QUOTE] + rest == EscapeByte(s[0]) + tail;
      ReadEscaped(s[0], tail);
      ReadEscape(s[1..], rest);
      assert [s[0]] + s[1..] == s;
    }
  }

  /** What the escaper writes is a JSON string literal that decodes to the original, no
      matter what is printed behind it. */
  lemma LiteralDecodes(s: Bytes, rest: Bytes)
    ensures ReadLiteral(Literal(s) + rest) == Some((s, rest))
  {
    ReadEscape(s, rest);
    assert (Literal(s) + rest)[1..] == Escape(s) + [QUOTE] + rest;
  }

  function Concatenated(list: seq<Bytes>): Bytes {
    if list == [] then [] else Literal(list[0]) + Concatenated(list[1..])
  }

  /** Literals printed one after the other split back into exactly the strings written. */
  lemma {:induction false} ConcatenatedSplits(list: seq<Bytes>)
    ensures ReadAll(Concatenated(list)) == Some(list)
  {
    if list != [] {
      LiteralDecodes(list[0], Concatenated(list[1..]));
      ConcatenatedSplits(list[1..]);
      assert [list[0]] + list[1..] == list;
    }
  }

  function Joined(list: seq<Bytes>): Bytes {
    if list == [] then []
    else if |list| == 1 then Literal(list[0])
    else Literal(list[0]) + ([COMMA] + Joined(list[1..]))
  }

  lemma {:induction false} JoinedAppend(list: seq<Bytes>, s: Bytes)
    requires list != []
    ensures Joined(list + [s]) == Joined(list) + [COMMA] + Literal(s)
  {
    var first := Literal(list[0]);
    assert (list + [s])[0] == list[0] && (list + [s])[1..] == list[1..] + [s];
    if |list| == 1 {
      assert list[1..] + [s] == [s];
      assert first + ([COMMA] + Literal(s)) == first + [COMMA] + Literal(s);
    } else {
      JoinedAppend(list[1..], s);
      Reassociate(first, [COMMA], Joined(list[1..]), Literal(s));
    }
  }

  lemma Reassociate(a: Bytes, b: Bytes, c: Bytes, e: Bytes)
    ensures a + (b + (c + b + e)) == a + (b + c) + b + e
  {
  }

  lemma JoinedStarts(list: seq<Bytes>)
    requires list != []
    ensures Joined(list) != [] && Joined(list)[0] == QUOTE
  {
    assert Literal(list[0])[0] == QUOTE;
  }

  lemma LastElement(s: Bytes, rest: Bytes)
    ensures ReadElements(Literal(s) + ([CLOSE] + rest)) == Some(([s], rest))
  {
    LiteralDecodes(s, [CLOSE] + rest);
    assert ([CLOSE] + rest)[1..] == rest;
  }

  lemma MoreElements(s: Bytes, tail: Bytes, list: seq<Bytes>, rest: Bytes)
    requires ReadElements(tail) == Some((list, rest))
    ensures ReadElements(Literal(s) + ([COMMA] + tail)) == Some(([s] + list, rest))
  {
    LiteralDecodes(s, [COMMA] + tail);
    assert ([COMMA] + tail)[1..] == tail;
  }

  lemma {:induction false} JoinedReads(list: seq<Bytes>, rest: Bytes)
    requires list != []
    ensures ReadElements(Joined(list) + [CLOSE] + rest) == Some((list, rest))
    decreases |list|
  {
    if |list| == 1 {
      LastElement(list[0], rest);
      assert [list[0]] == list;
      assert Literal(list[0]) + [CLOSE] + rest == Literal(list[0]) + ([CLOSE] + rest);
    } else {
      var tail := Joined(list[1..]) + [CLOSE] + rest;
      JoinedReads(list[1..], rest);
      MoreElements(list[0], tail, list[1..], rest);
      assert [list[0]] + list[1..] == list;
      JoinedMore(list, rest);
    }
  }

  lemma JoinedMore(list: seq<Bytes>, rest: Bytes)
    requires |list| > 1
    ensures Joined(list) + [CLOSE] + rest == Literal(list[0]) + ([COMMA] + (Joined(list[1..]) + [CLOSE] + rest))
  {
    MoveOut(Literal(list[0]), [COMMA], Joined(list[1..]), [CLOSE], rest);
  }

  lemma MoveOut(a: Bytes, b: Bytes, c: Bytes, d: Bytes, e: Bytes)
    ensures a + (b + c) + d + e == a + (b + (c + d + e))
  {
  }

  // ---------------------------------------------------------------- the loops

  lemma OneMoreByte(s: Bytes, i: nat)
    requires i < |s|
    ensures Escape(s[..i + 1]) == Escape(s[..i]) + EscapeByte(s[i])
  {
    assert s[..i + 1] == s[..i] + [s[i]];
    EscapeAppend(s[..i], s[i]);
  }

  lemma Regroup(a: Bytes, b: Bytes, c: Bytes)
    ensures a + (b + c) == a + b + c
  {
  }

  /** The escaper's loop over the bytes of a C string. */
  method JsonString(out: Bytes, s: Bytes) returns (r: Bytes)
    ensures r == out + Literal(s)
  {
    r := out + [QUOTE];
    for i := 0 to |s|
      invariant r == out + [QUOTE] + Escape(s[..i])
    {
      OneMoreByte(s, i);
      Regroup(out + [QUOTE], Escape(s[..i]), EscapeByte(s[i]));
      r := r + EscapeByte(s[i]);
    }
    assert s[..|s|] == s;
    r := r + [QUOTE];
  }

  /** Errors of the failed workers, in worker order. */
  function Failures(errors: seq<Option<Bytes>>): seq<Bytes> {
    if errors == [] then []
    else
      var last := errors[|errors| - 1];
      Failures(errors[..|errors| - 1]) + if last.Some? then [last.value] else []
  }

  lemma OneMoreWorker(errors: seq<Option<Bytes>>, i: nat)
    requires i < |errors|
    ensures Failures(errors[..i + 1]) == Failures(errors[..i]) + if errors[i].Some? then [errors[i].value] else []
  {
    assert errors[..i + 1][..i] == errors[..i];
  }

  /** The array with one more element: a comma only between elements. */
  lemma OneMoreElement(list: seq<Bytes>, s: Bytes)
    ensures [OPEN] + Joined(list + [s]) ==
            [OPEN] + Joined(list) + (if list == [] then [] else [COMMA]) + Literal(s)
  {
    if list == [] {
      assert list + [s] == [s];
    } else {
      JoinedAppend(list, s);
    }
  }

  /** `"worker_errors":[...]`: whatever follows, a JSON reader gets back exactly the errors of
      the failed workers in order; the verdict passes exactly when there is none. */
  method WorkerErrors(errors: seq<Option<Bytes>>) returns (out: Bytes, pass: bool)
    ensures forall rest :: ReadArray(out + rest) == Some((Failures(errors), rest))
    ensures pass <==> forall i :: 0 <= i < |errors| ==> errors[i].None?
  {
    out := [OPEN];
    var n := 0;
    ghost var list: seq<Bytes> := [];
    for i := 0 to |errors|
      invariant list == Failures(errors[..i]) && |list| == n
      invariant out == [OPEN] + Joined(list)
      invariant n == 0 <==> forall j :: 0 <= j < i ==> errors[j].None?
    {
      OneMoreWorker(errors, i);
      if errors[i].Some? {
        var s := errors[i].value;
        if n > 0 { out := out + [COMMA]; }
        out := JsonString(out, s);
        OneMoreElement(list, s);
        n := n + 1;
        list := list + [s];
      }
    }
    assert errors[..|errors|] == errors;
    out := out + [CLOSE];
    pass := n == 0;
    forall rest ensures ReadArray(out + rest) == Some((Failures(errors), rest)) {
      ArrayReads(list, rest);
      assert out + rest == [OPEN] + Joined(list) + [CLOSE] + rest;
    }
  }

  lemma ArrayReads(list: seq<Bytes>, rest: Bytes)
    ensures ReadArray([OPEN] + Joined(list) + [CLOSE] + rest) == Some((list, rest))
  {
    var body := Joined(list) + [CLOSE] + rest;
    assert [OPEN] + Joined(list) + [CLOSE] + rest == [OPEN] + body;
    assert ([OPEN] + body)[1..] == body;
    if list == [] {
      assert body[1..] == rest;
    } else {
      JoinedReads(list, rest);
      JoinedStarts(list);
    }
  }
}
