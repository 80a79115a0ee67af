/** The harness's check of a hash name against the JSON array the library returns
    (loop/main.c): a substring search for the quoted name, and exactly which names it passes. */
module Registry {
  import opened Basics

  const BUFFER: nat := 128

  predicate QuoteFree(s: string) { forall i :: 0 <= i < |s| ==> s[i] != '"' }

  predicate NameChar(c: char) { 'a' <= c <= 'z' || '0' <= c <= '9' || c == '-' }

  predicate RegistryName(s: string) { forall i :: 0 <= i < |s| ==> NameChar(s[i]) }

  predicate RegistryNames(names: seq<string>) { forall i :: 0 <= i < |names| ==> RegistryName(names[i]) }

  /** The array from a name's opening quote on. */
  function Elements(names: seq<string>): string
    requires names != []
    decreases |names|, 1
  {
    "\"" + (names[0] + ("\"" + After(names)))
  }

  /** The array behind a name's closing quote. */
  function After(names: seq<string>): string
    requires names != []
    decreases |names|, 0
  {
    if |names| == 1 then "]" else "," + Elements(names[1..])
  }

  /** The array of names as the library prints it. */
  function Json(names: seq<string>): string { "[" + if names == [] then "]" else Elements(names) }

  /** `snprintf(quoted, 128, "\"%s\"", name)`: cut to 127 characters. */
  function Quoted(name: string): (q: string)
    ensures 2 <= |q| < BUFFER && q[0] == '"'
  {
    var q := "\"" + name + "\"";
    if |q| < BUFFER then q else q[..BUFFER - 1]
  }

  /** `strstr`. */
  predicate Occurs(text: string, s: string) {
    s <= text || (text != "" && Occurs(text[1..], s))
  }

  /** The check; the library call itself may fail. */
  predicate Registered(json: Option<string>, name: string) {
    json.Some? && Occurs(json.value, Quoted(name))
  }

  // ---------------------------------------------------------------- only quotes matter

  lemma {:induction false} Skip(head: string, text: string, s: string)
    requires QuoteFree(head) && s != "" && s[0] == '"'
    ensures Occurs(head + text, s) == Occurs(text, s)
    decreases |head|
  {
    if head == "" {
      assert head + text == text;
    } else {
      assert (head + text)[1..] == head[1..] + text;
      assert !(s <= head + text) by {
        assert (head + text)[0] == head[0] != s[0];
      }
      Skip(head[1..], text, s);
    }
  }

  lemma OccursAtQuote(rest: string, s: string)
    ensures Occurs("\"" + rest, s) <==> s <= "\"" + rest || Occurs(rest, s)
  {
    assert ("\"" + rest)[1..] == rest;
  }

  /** The search finds `q` at the opening or at the closing quote of some name. */
  predicate Found(names: seq<string>, q: string)
    decreases |names|
  {
    names != [] && (q <= Elements(names) || q <= "\"" + After(names) || Found(names[1..], q))
  }

  lemma EndOfArray(q: string)
    requires |q| >= 2 && q[0] == '"'
    ensures !Occurs("]", q)
  {
    assert "]"[1..] == "";
  }

  lemma {:induction false} SearchesQuotes(names: seq<string>, q: string)
    requires RegistryNames(names) && names != [] && |q| >= 2 && q[0] == '"'
    ensures Occurs(Elements(names), q) <==> Found(names, q)
    decreases |names|
  {
    var first, after := names[0], After(names);
    assert QuoteFree(first) by { assert RegistryName(first); }
    OccursAtQuote(first + ("\"" + after), q);
    Skip(first, "\"" + after, q);
    OccursAtQuote(after, q);
    if |names| == 1 {
      EndOfArray(q);
    } else {
      Skip(",", Elements(names[1..]), q);
      SearchesQuotes(names[1..], q);
    }
  }

  // ---------------------------------------------------------------- which texts stand between quotes

  /** From an opening quote to a later quote: this name, or this name and on to the next
      opening quote, or on into the next name. */
  predicate FromOpen(names: seq<string>, name: string)
    decreases |names|
  {
    names != [] &&
    var n := names[0];
    name == n ||
    (|names| >= 2 &&
     (name == n + "\"," || (n + "\",\"" <= name && FromOpen(names[1..], name[|n| + 3..]))))
  }

  /** From a closing quote to a later quote. */
  predicate FromClose(names: seq<string>, name: string) {
    |names| >= 2 && (name == "," || (",\"" <= name && FromOpen(names[1..], name[2..])))
  }

  /** Where `x` and a quote begin a text whose first quote stands behind `y`. */
  lemma FirstQuote(x: string, y: string, z: string)
    requires QuoteFree(y)
    ensures x + "\"" <= y + ("\"" + z) <==>
            x == y || (y + "\"" <= x && x[|y| + 1..] + "\"" <= z)
  {
    var t := y + ("\"" + z);
    if y + "\"" <= x {
      var r := x[|y| + 1..];
      assert x == y + "\"" + r;
      assert x + "\"" == (y + "\"") + (r + "\"") && t == (y + "\"") + z;
      CancelPrefix(y + "\"", r + "\"", z);
    } else if x + "\"" <= t {
      assert t[|x|] == '"' && t[|y|] == '"' && x == t[..|x|];
      assert t[..|y|] == y && t[..|y| + 1] == y + "\"";
    }
  }

  lemma CancelPrefix(a: string, b: string, c: string)
    ensures a + b <= a + c <==> b <= c
  {
    if a + b <= a + c {
      assert (a + c)[|a|..|a| + |b|] == (a + b)[|a|..] == b;
      assert (a + c)[|a|..|a| + |b|] == c[..|b|];
    }
  }

  /** Behind a comma the next quote opens the next name. */
  lemma BehindComma(e: string, r: string)
    requires e != "" && e[0] == '"'
    ensures r + "\"" <= "," + e <==> r == "," || (",\"" <= r && "\"" + (r[2..] + "\"") <= e)
  {
    if r == "" || r[0] != ',' {
      assert (r + "\"")[0] != ("," + e)[0];
    } else if r == "," {
      assert e == "\"" + e[1..] && "," + e == (r + "\"") + e[1..];
    } else {
      assert r + "\"" == "," + (r[1..] + "\"");
      CancelPrefix(",", r[1..] + "\"", e);
      assert (r[1..] + "\"")[0] == r[1];
      assert r[1] == '"' ==> r[1..] + "\"" == "\"" + (r[2..] + "\"");
    }
  }

  lemma BehindClose(names: seq<string>, r: string)
    requires names != []
    ensures r + "\"" <= After(names) <==>
            |names| >= 2 && (r == "," || (",\"" <= r && "\"" + (r[2..] + "\"") <= Elements(names[1..])))
  {
    if |names| == 1 {
      assert r == "" ==> (r + "\"")[0] != "]"[0];
    } else {
      BehindComma(Elements(names[1..]), r);
    }
  }

  lemma NextName(n: string, name: string, r: string)
    requires name == n + "\"" + r
    ensures r == "," <==> name == n + "\","
    ensures ",\"" <= r <==> n + "\",\"" <= name
    ensures ",\"" <= r ==> r[2..] == name[|n| + 3..]
  {
    assert r == name[|n| + 1..];
    CancelPrefix(n + "\"", ",\"", r);
    assert n + "\"" + ",\"" == n + "\",\"";
    assert n + "\"" + "," == n + "\",";
  }

  lemma {:induction false} OpenExact(names: seq<string>, name: string)
    requires RegistryNames(names) && names != []
    ensures "\"" + (name + "\"") <= Elements(names) <==> FromOpen(names, name)
    decreases |names|
  {
    var n, after := names[0], After(names);
    assert QuoteFree(n) by { assert RegistryName(n); }
    CancelPrefix("\"", name + "\"", n + ("\"" + after));
    FirstQuote(name, n, after);
    if n + "\"" <= name {
      var r := name[|n| + 1..];
      assert name == n + "\"" + r;
      BehindClose(names, r);
      NextName(n, name, r);
      if |names| >= 2 && ",\"" <= r { OpenExact(names[1..], r[2..]); }
    } else {
      NoQuoteBehind(n, name);
    }
  }

  lemma NoQuoteBehind(n: string, name: string)
    requires !(n + "\"" <= name)
    ensures name != n + "\"," && !(n + "\",\"" <= name)
  {
    Shorter(n + "\"", ",", name);
    Shorter(n + "\"", ",\"", name);
    assert n + "\"" + "," == n + "\"," && n + "\"" + ",\"" == n + "\",\"";
  }

  lemma Shorter(a: string, b: string, s: string)
    ensures a + b <= s ==> a <= s
  {
    if a + b <= s { assert s[..|a + b|][..|a|] == a; }
  }

  lemma CloseExact(names: seq<string>, name: string)
    requires RegistryNames(names) && names != []
    ensures "\"" + (name + "\"") <= "\"" + After(names) <==> FromClose(names, name)
  {
    CancelPrefix("\"", name + "\"", After(names));
    BehindClose(names, name);
    if |names| >= 2 && ",\"" <= name { OpenExact(names[1..], name[2..]); }
  }

  // ---------------------------------------------------------------- the same, written out

  /** Consecutive names as they stand in the array, without the outer quotes. */
  function Run(names: seq<string>): string
    requires names != []
  {
    if |names| == 1 then names[0] else names[0] + ("\",\"" + Run(names[1..]))
  }

  /** The names `i` to `j`, with or without what stands before them up to the previous closing
      quote and behind them up to the next opening quote. */
  predicate Span(names: seq<string>, i: nat, j: nat, lead: bool, trail: bool, name: string) {
    && i < j <= |names| && (lead ==> i > 0) && (trail ==> j < |names|)
    && name == (if lead then ",\"" else "") + Run(names[i..j]) + (if trail then "\"," else "")
  }

  function Trail(trail: bool): string { if trail then "\"," else "" }

  lemma {:induction false} OpenIsSpan(names: seq<string>, name: string) returns (j: nat, trail: bool)
    requires FromOpen(names, name)
    ensures Span(names, 0, j, false, trail, name)
    decreases |names|
  {
    var n := names[0];
    if name == n || name == n + "\"," {
      j, trail := 1, name != n;
      OneName(names, trail);
    } else {
      var rest := name[|n| + 3..];
      var k;
      k, trail := OpenIsSpan(names[1..], rest);
      j := k + 1;
      assert name == n + "\",\"" + rest;
      LongerRun(names, k, trail, rest);
    }
  }

  lemma OneName(names: seq<string>, trail: bool)
    requires names != [] && (trail ==> |names| >= 2)
    ensures Span(names, 0, 1, false, trail, names[0] + Trail(trail))
    ensures trail || names[0] + Trail(trail) == names[0]
  {
    assert names[0..1] == [names[0]];
    assert "" + names[0] == names[0];
  }

  lemma LongerRun(names: seq<string>, k: nat, trail: bool, rest: string)
    requires |names| >= 2 && Span(names[1..], 0, k, false, trail, rest)
    ensures Span(names, 0, k + 1, false, trail, names[0] + "\",\"" + rest)
  {
    var run := Run(names[1..][0..k]);
    assert names[0..k + 1][1..] == names[1..][0..k];
    assert Run(names[0..k + 1]) == names[0] + ("\",\"" + run);
    assert rest == run + Trail(trail);
  }

  lemma {:induction false} SpanIsOpen(names: seq<string>, j: nat, trail: bool, name: string)
    requires Span(names, 0, j, false, trail, name)
    ensures FromOpen(names, name)
    decreases |names|
  {
    var n := names[0];
    var tail := if trail then "\"," else "";
    if j == 1 {
      assert names[0..1] == [n];
    } else {
      var rest := Run(names[1..][0..j - 1]) + tail;
      assert names[0..j][1..] == names[1..][0..j - 1];
      assert name == (n + "\",\"") + rest;
      assert name[|n| + 3..] == rest == "" + Run(names[1..][0..j - 1]) + tail;
      SpanIsOpen(names[1..], j - 1, trail, rest);
    }
  }

  /** The array with its first name dropped has the same spans, one place earlier. */
  lemma Shift(names: seq<string>, i: nat, j: nat, lead: bool, trail: bool, name: string)
    requires 0 < i < j <= |names|
    ensures names[1..][i - 1..j - 1] == names[i..j]
    ensures Span(names[1..], i - 1, j - 1, lead, trail, name) ==> Span(names, i, j, lead, trail, name)
    ensures Span(names, i, j, lead, trail, name) && (lead ==> i > 1) ==> Span(names[1..], i - 1, j - 1, lead, trail, name)
  {
    assert names[1..][i - 1..j - 1] == names[i..j];
  }

  lemma CloseIsSpan(names: seq<string>, name: string) returns (j: nat, trail: bool)
    requires FromClose(names, name) && name != ","
    ensures Span(names, 1, j, true, trail, name)
  {
    var k;
    k, trail := OpenIsSpan(names[1..], name[2..]);
    j := k + 1;
    Shift(names, 1, j, false, trail, name[2..]);
    assert name == ",\"" + name[2..];
    var tail := if trail then "\"," else "";
    assert ",\"" + ("" + Run(names[1..j]) + tail) == ",\"" + Run(names[1..j]) + tail;
  }

  lemma SpanIsClose(names: seq<string>, j: nat, trail: bool, name: string)
    requires Span(names, 1, j, true, trail, name)
    ensures FromClose(names, name)
  {
    var tail := if trail then "\"," else "";
    Shift(names, 1, j, false, trail, name[2..]);
    assert name == ",\"" + (Run(names[1..j]) + tail);
    assert name[2..] == "" + Run(names[1..j]) + tail;
    SpanIsOpen(names[1..], j - 1, trail, name[2..]);
  }

  ghost predicate IsSpan(names: seq<string>, name: string) {
    exists i, j, lead, trail :: Span(names, i, j, lead, trail, name)
  }

  lemma {:induction false} FoundIsSpan(names: seq<string>, name: string)
    requires RegistryNames(names) && Found(names, "\"" + (name + "\""))
    ensures IsSpan(names, name) || (name == "," && |names| >= 2)
    decreases |names|
  {
    var q := "\"" + (name + "\"");
    OpenExact(names, name);
    CloseExact(names, name);
    if q <= Elements(names) {
      var j, trail := OpenIsSpan(names, name);
      assert Span(names, 0, j, false, trail, name);
    } else if q <= "\"" + After(names) {
      if name != "," {
        var j, trail := CloseIsSpan(names, name);
        assert Span(names, 1, j, true, trail, name);
      }
    } else {
      FoundIsSpan(names[1..], name);
      if i: nat, j: nat, lead: bool, trail: bool :| Span(names[1..], i, j, lead, trail, name) {
        Shift(names, i + 1, j + 1, lead, trail, name);
        assert Span(names, i + 1, j + 1, lead, trail, name);
      }
    }
  }

  lemma {:induction false} SpanIsFound(names: seq<string>, i: nat, j: nat, lead: bool, trail: bool, name: string)
    requires RegistryNames(names) && Span(names, i, j, lead, trail, name)
    ensures Found(names, "\"" + (name + "\""))
    decreases |names|
  {
    OpenExact(names, name);
    CloseExact(names, name);
    if i == 0 {
      SpanIsOpen(names, j, trail, name);
    } else if i == 1 && lead {
      SpanIsClose(names, j, trail, name);
    } else {
      Shift(names, i, j, lead, trail, name);
      SpanIsFound(names[1..], i - 1, j - 1, lead, trail, name);
    }
  }

  // ---------------------------------------------------------------- what the check decides

  /** Texts between two quotes of the array that are not one name: the comma between two names,
      and every span of several names or with a lead or a trail. */
  ghost predicate Spurious(names: seq<string>, name: string) {
    (name == "," && |names| >= 2) ||
    exists i, j, lead, trail :: Span(names, i, j, lead, trail, name) && (lead || trail || j > i + 1)
  }

  lemma {:induction false} RunQuotes(names: seq<string>)
    requires |names| >= 2
    ensures '"' in Run(names)
  {
    assert "\",\""[0] == '"';
    assert '"' in "\",\"";
  }

  lemma SpuriousQuotes(names: seq<string>, i: nat, j: nat, lead: bool, trail: bool, name: string)
    requires Span(names, i, j, lead, trail, name) && (lead || trail || j > i + 1)
    ensures '"' in name
  {
    if lead { assert ",\""[1] == '"'; assert '"' in ",\""; }
    if trail { assert "\","[0] == '"'; assert '"' in "\","; }
    if j > i + 1 { RunQuotes(names[i..j]); }
  }

  lemma Members(names: seq<string>, name: string)
    requires RegistryNames(names) && name in names
    ensures IsSpan(names, name) && !Spurious(names, name)
  {
    var i :| 0 <= i < |names| && names[i] == name;
    assert names[i..i + 1] == [name];
    assert Span(names, i, i + 1, false, false, name);
    assert RegistryName(names[i]);
    assert name == "," ==> NameChar(name[0]);
    assert '"' !in name;
    forall a, b, lead, trail | Span(names, a, b, lead, trail, name) ensures !lead && !trail && b == a + 1 {
      if lead || trail || b > a + 1 { SpuriousQuotes(names, a, b, lead, trail, name); }
    }
  }

  /** Which names of up to 125 characters pass: the registered ones and the spurious texts, and
      no name is both. So the check is membership exactly for the names that are not spurious. */
  lemma RegisteredExactly(names: seq<string>, name: string)
    requires RegistryNames(names) && |name| <= 125
    ensures Registered(Some(Json(names)), name) <==> name in names || Spurious(names, name)
    ensures (Registered(Some(Json(names)), name) <==> name in names) <==> !Spurious(names, name)
  {
    Searched(names, name);
    var q := "\"" + (name + "\"");
    assert Quoted(name) == q;
    if name in names { Members(names, name); }
    if Found(names, q) {
      FoundIsSpan(names, name);
      if i: nat, j: nat, lead: bool, trail: bool :| Span(names, i, j, lead, trail, name) { SpanOrName(names, i, j, lead, trail, name); }
    }
    if i: nat, j: nat, lead: bool, trail: bool :| Span(names, i, j, lead, trail, name) { SpanIsFound(names, i, j, lead, trail, name); }
    if name == "," && |names| >= 2 { CloseExact(names, name); }
  }

  lemma SpanOrName(names: seq<string>, i: nat, j: nat, lead: bool, trail: bool, name: string)
    requires Span(names, i, j, lead, trail, name)
    ensures name in names || Spurious(names, name)
  {
    if !lead && !trail && j == i + 1 {
      assert names[i..j] == [names[i]];
      assert name == "" + names[i] + "" == names[i];
    }
  }

  lemma Searched(names: seq<string>, name: string)
    requires RegistryNames(names)
    ensures Registered(Some(Json(names)), name) <==> Found(names, Quoted(name))
  {
    var q := Quoted(name);
    if names == [] {
      assert Json(names) == "[]" && "[]"[1..] == "]";
      EndOfArray(q);
    } else {
      Skip("[", Elements(names), q);
      SearchesQuotes(names, q);
    }
  }

  /** A longer name is cut: it passes exactly when its first 126 characters stand behind a
      quote of the array. */
  lemma {:induction false} LongNames(names: seq<string>, name: string)
    requires RegistryNames(names) && |name| > 125
    ensures Registered(Some(Json(names)), name) <==>
            exists i :: 0 <= i < |names| && BehindQuote(names[i..], name[..126])
  {
    Searched(names, name);
    assert Quoted(name) == "\"" + name[..126];
    FoundBehind(names, name[..126]);
  }

  predicate BehindQuote(names: seq<string>, s: string) {
    names != [] && ("\"" + s <= Elements(names) || "\"" + s <= "\"" + After(names))
  }

  lemma {:induction false} FoundBehind(names: seq<string>, s: string)
    ensures Found(names, "\"" + s) <==> exists i :: 0 <= i < |names| && BehindQuote(names[i..], s)
    decreases |names|
  {
    if names != [] {
      FoundBehind(names[1..], s);
      assert names[0..] == names;
      forall i | 0 <= i < |names[1..]| ensures names[1..][i..] == names[i + 1..] {
      }
      if i :| 0 <= i < |names[1..]| && BehindQuote(names[1..][i..], s) { assert BehindQuote(names[i + 1..], s); }
      if i :| 0 <= i < |names| && BehindQuote(names[i..], s) && i > 0 { assert BehindQuote(names[1..][i - 1..], s); }
    }
  }

  /** For every name of the registry's own alphabet that fits the buffer the check is
      membership. */
  lemma RegisteredNames(names: seq<string>, name: string)
    requires RegistryNames(names) && RegistryName(name) && |name| <= 125
    ensures Registered(Some(Json(names)), name) <==> name in names
  {
    RegisteredExactly(names, name);
    assert |name| == 1 ==> NameChar(name[0]);
    assert '"' !in name;
    forall i, j, lead, trail | Span(names, i, j, lead, trail, name)
      ensures !lead && !trail && j == i + 1
    {
      if lead || trail || j > i + 1 {
        SpuriousQuotes(names, i, j, lead, trail, name);
      }
    }
  }

  /** Two names that pass although they are none. */
  lemma FalseNames()
    ensures RegistryNames(["one", "two"])
    ensures "," !in ["one", "two"] && Registered(Some(Json(["one", "two"])), ",")
    ensures "one\",\"two" !in ["one", "two"] && Registered(Some(Json(["one", "two"])), "one\",\"two")
  {
    var names := ["one", "two"];
    assert RegistryNames(names);
    RegisteredExactly(names, ",");
    assert names[0..2] == names && names[1..] == ["two"];
    assert Run(names) == "one\",\"two";
    assert Span(names, 0, 2, false, false, "one\",\"two");
    RegisteredExactly(names, "one\",\"two");
  }
}
