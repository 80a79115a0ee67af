/** Byte sizes (loop/size.c): digits, optional blanks, an optional binary suffix in any case,
    all surrounded by optional blanks. */
module Sizes {
  import opened Basics
  import opened Durations
  import opened Numerals

  /** The suffix table in the order it is searched; the last row stands for no suffix. */
  const SUFFIXES: seq<string> := ["KIB", "KB", "K", "MIB", "MB", "M", "GIB", "GB", "G", "B", ""]
  const MULTIPLES: seq<int> :=
    [0x400, 0x400, 0x400, 0x10_0000, 0x10_0000, 0x10_0000, 0x4000_0000, 0x4000_0000, 0x4000_0000, 1, 1]
  const NO_SUFFIX: nat := 10

  predicate IsSpace(c: char) { c == ' ' || 9 as char <= c <= 13 as char }

  predicate AllSpace(s: string) { forall i :: 0 <= i < |s| ==> IsSpace(s[i]) }

  function ToUpper(c: char): char { if 'a' <= c <= 'z' then (c as int - 32) as char else c }

  function Upper(s: string): (u: string)
    ensures |u| == |s|
  {
    seq(|s|, i requires 0 <= i < |s| => ToUpper(s[i]))
  }

  function TrimLeft(s: string): string {
    if s != "" && IsSpace(s[0]) then TrimLeft(s[1..]) else s
  }

  function TrimRight(s: string): (t: string)
    ensures t <= s
  {
    if s != "" && IsSpace(s[|s| - 1]) then TrimRight(s[..|s| - 1]) else s
  }

  predicate EndsWith(s: string, suffix: string) { |suffix| <= |s| && s[|s| - |suffix|..] == suffix }

  /** The first row from `k` on whose suffix `s` ends with. */
  function FirstSuffix(s: string, k: nat): (j: nat)
    requires k <= NO_SUFFIX
    ensures k <= j <= NO_SUFFIX && EndsWith(s, SUFFIXES[j])
    ensures forall i :: k <= i < j ==> !EndsWith(s, SUFFIXES[i])
    decreases NO_SUFFIX - k
  {
    if k == NO_SUFFIX || EndsWith(s, SUFFIXES[k]) then k else FirstSuffix(s, k + 1)
  }

  /** The value of trimmed, upper-cased text. */
  function CoreSize(core: string): Option<int> {
    var k := FirstSuffix(core, 0);
    var number := TrimRight(core[..|core| - |SUFFIXES[k]|]);
    if number == "" || !AllDigits(number) || Natural(number) * MULTIPLES[k] > INT64_MAX then None
    else Some(Natural(number) * MULTIPLES[k])
  }

  function ParsedSize(s: string): Option<int> {
    var t := TrimRight(TrimLeft(s));
    if t == "" || |t| >= 64 then None else CoreSize(Upper(t))
  }

  // ---------------------------------------------------------------- the loops

  method ParseSize(s: string) returns (r: Option<int>)
    ensures r == ParsedSize(s)
  {
    var lo := 0;
    while lo < |s| && IsSpace(s[lo])
      invariant lo <= |s| && TrimLeft(s) == TrimLeft(s[lo..])
    {
      lo := lo + 1;
    }
    var t := s[lo..];
    var len := StripRight(t);
    if len == 0 || len >= 64 { return None; }
    var upper := UpperCase(t[..len]);
    r := ParseUpper(upper);
  }

  method ParseUpper(upper: string) returns (r: Option<int>)
    ensures r == CoreSize(upper)
  {
    var k := FindSuffix(upper);
    var mult := MULTIPLES[k];
    var head := upper[..|upper| - |SUFFIXES[k]|];
    var digits := StripRight(head);
    if digits == 0 { return None; }
    var n := ParseDigits(head[..digits]);
    if n.None? { return None; }
    TestBeforeMultiply(n.value, mult);
    if n.value > INT64_MAX || (mult > 1 && n.value > INT64_MAX / mult) { return None; }
    return Some(n.value * mult);
  }

  /** The digit check and `strtoll`. */
  method ParseDigits(s: string) returns (n: Option<nat>)
    ensures n == if AllDigits(s) then Some(Natural(s)) else None
  {
    for i := 0 to |s|
      invariant AllDigits(s[..i])
    {
      if !IsDigit(s[i]) { return None; }
    }
    assert s[..|s|] == s;
    return Some(Natural(s));
  }

  method StripRight(s: string) returns (n: nat)
    ensures n <= |s| && s[..n] == TrimRight(s)
  {
    n := |s|;
    assert s[..n] == s;
    while n > 0 && IsSpace(s[n - 1])
      invariant n <= |s| && TrimRight(s) == TrimRight(s[..n])
    {
      assert s[..n][..n - 1] == s[..n - 1];
      n := n - 1;
    }
  }

  method UpperCase(s: string) returns (u: string)
    ensures u == Upper(s)
  {
    u := "";
    for i := 0 to |s|
      invariant |u| == i && forall j :: 0 <= j < i ==> u[j] == ToUpper(s[j])
    {
      u := u + [ToUpper(s[i])];
    }
  }

  method FindSuffix(s: string) returns (k: nat)
    ensures k == FirstSuffix(s, 0)
  {
    for i := 0 to NO_SUFFIX
      invariant FirstSuffix(s, 0) == FirstSuffix(s, i)
    {
      if EndsWith(s, SUFFIXES[i]) { return i; }
    }
    k := NO_SUFFIX;
  }

  /** The division test refuses exactly the products that overflow. */
  lemma TestBeforeMultiply(n: nat, mult: int)
    requires mult >= 1
    ensures n > INT64_MAX || (mult > 1 && n > INT64_MAX / mult) <==> n * mult > INT64_MAX
  {
    var q, r := INT64_MAX / mult, INT64_MAX % mult;
    assert INT64_MAX == q * mult + r;
    if n > q {
      assert n * mult >= (q + 1) * mult;
    } else {
      assert n * mult <= q * mult;
    }
  }

  // ---------------------------------------------------------------- the language, exactly

  datatype Parts = Parts(before: string, number: string, gap: string, suffix: string, after: string, row: nat)

  /** How a size is written: `row` says which suffix it carries. */
  ghost predicate Reads(s: string, p: Parts) {
    && s == p.before + (p.number + p.gap + p.suffix) + p.after
    && AllSpace(p.before) && AllSpace(p.gap) && AllSpace(p.after)
    && p.number != "" && AllDigits(p.number)
    && p.row <= NO_SUFFIX && Upper(p.suffix) == SUFFIXES[p.row]
    && (p.suffix == "" ==> p.gap == "")
    && |p.number + p.gap + p.suffix| < 64
  }

  function Value(p: Parts): int
    requires AllDigits(p.number) && p.row <= NO_SUFFIX
  {
    Natural(p.number) * MULTIPLES[p.row]
  }

  lemma {:induction false} TrimLeftStops(a: string, s: string)
    requires AllSpace(a) && s != "" && !IsSpace(s[0])
    ensures TrimLeft(a + s) == s
    decreases |a|
  {
    if a == "" {
      assert a + s == s;
    } else {
      assert (a + s)[1..] == a[1..] + s;
      TrimLeftStops(a[1..], s);
    }
  }

  lemma {:induction false} TrimRightStops(s: string, a: string)
    requires AllSpace(a) && (s == "" || !IsSpace(s[|s| - 1]))
    ensures TrimRight(s + a) == s
    decreases |a|
  {
    if a == "" {
      assert s + a == s;
    } else {
      assert (s + a)[..|s + a| - 1] == s + a[..|a| - 1];
      TrimRightStops(s, a[..|a| - 1]);
    }
  }

  lemma {:induction false} TrimLeftSplits(s: string) returns (a: string)
    ensures AllSpace(a) && s == a + TrimLeft(s)
    decreases |s|
  {
    if s != "" && IsSpace(s[0]) {
      var rest := TrimLeftSplits(s[1..]);
      a := [s[0]] + rest;
    } else {
      a := "";
    }
  }

  lemma {:induction false} TrimRightSplits(s: string) returns (a: string)
    ensures AllSpace(a) && s == TrimRight(s) + a
    ensures TrimRight(s) == "" || !IsSpace(TrimRight(s)[|TrimRight(s)| - 1])
    decreases |s|
  {
    if s != "" && IsSpace(s[|s| - 1]) {
      var rest := TrimRightSplits(s[..|s| - 1]);
      a := rest + [s[|s| - 1]];
    } else {
      a := "";
    }
  }

  function Back(s: string, i: nat): char
    requires 1 <= i <= |s|
  {
    s[|s| - i]
  }

  lemma FromTheEnd(s: string, suffix: string, i: nat)
    requires EndsWith(s, suffix) && 1 <= i <= |suffix|
    ensures Back(suffix, i) == Back(s, i)
  {
    assert s[|s| - |suffix|..][|suffix| - i] == s[|s| - i];
  }

  lemma SuffixLetters(j: nat, i: nat)
    requires j < NO_SUFFIX && i < |SUFFIXES[j]|
    ensures IsAlpha(SUFFIXES[j][i])
  {
  }

  /** Of two suffixes a text ends with, the one earlier in the table is the longer. */
  lemma EarlierIsLonger(s: string, j: nat, k: nat)
    requires j < k <= NO_SUFFIX && EndsWith(s, SUFFIXES[j]) && EndsWith(s, SUFFIXES[k])
    ensures |SUFFIXES[j]| > |SUFFIXES[k]|
  {
    forall i | 1 <= i <= |SUFFIXES[j]| && i <= |SUFFIXES[k]|
      ensures Back(SUFFIXES[j], i) == Back(SUFFIXES[k], i)
    {
      FromTheEnd(s, SUFFIXES[j], i);
      FromTheEnd(s, SUFFIXES[k], i);
    }
    TableOrder(j, k);
  }

  /** Two rows that agree backwards are ordered longest first. */
  lemma TableOrder(j: nat, k: nat)
    requires j < k <= NO_SUFFIX
    requires forall i :: 1 <= i <= |SUFFIXES[j]| && i <= |SUFFIXES[k]| ==>
                           Back(SUFFIXES[j], i) == Back(SUFFIXES[k], i)
    ensures |SUFFIXES[j]| > |SUFFIXES[k]|
  {
    var a, b := SUFFIXES[j], SUFFIXES[k];
    if k < NO_SUFFIX {
      assert Back(a, 1) == Back(b, 1);
      assert |a| >= 2 && |b| >= 2 ==> Back(a, 2) == Back(b, 2);
      assert |a| >= 3 && |b| >= 3 ==> Back(a, 3) == Back(b, 3);
    }
  }

  /** The first row that matches is the longest that does. */
  lemma FirstIsLongest(s: string, k: nat)
    requires k <= NO_SUFFIX && EndsWith(s, SUFFIXES[k])
    ensures |SUFFIXES[k]| <= |SUFFIXES[FirstSuffix(s, 0)]|
  {
    var j := FirstSuffix(s, 0);
    if j < k { EarlierIsLonger(s, j, k); }
  }

  /** A longer suffix reaches into the text before the shorter one. */
  lemma LongerSuffix(head: string, j: nat, k: nat)
    requires j < NO_SUFFIX && k <= NO_SUFFIX && head != ""
    requires |SUFFIXES[j]| > |SUFFIXES[k]| && EndsWith(head + SUFFIXES[k], SUFFIXES[j])
    ensures IsAlpha(head[|head| - 1])
  {
    var s, i := head + SUFFIXES[k], |SUFFIXES[k]| + 1;
    FromTheEnd(s, SUFFIXES[j], i);
    SuffixLetters(j, |SUFFIXES[j]| - i);
    assert Back(s, i) == head[|head| - 1];
    assert Back(SUFFIXES[j], i) == SUFFIXES[j][|SUFFIXES[j]| - i];
  }

  /** Behind a digit or a blank, only the suffix itself can be found. */
  lemma SuffixFound(head: string, k: nat)
    requires k <= NO_SUFFIX && head != ""
    requires IsDigit(head[|head| - 1]) || (IsSpace(head[|head| - 1]) && k < NO_SUFFIX)
    ensures FirstSuffix(head + SUFFIXES[k], 0) == k
  {
    var s := head + SUFFIXES[k];
    assert EndsWith(s, SUFFIXES[k]);
    var j := FirstSuffix(s, 0);
    if j < k {
      EarlierIsLonger(s, j, k);
      LongerSuffix(head, j, k);
    }
  }

  lemma UpperParts(p: Parts)
    requires AllDigits(p.number) && AllSpace(p.gap)
    ensures Upper(p.number + p.gap + p.suffix) == p.number + p.gap + Upper(p.suffix)
  {
  }

  /** Trimming leaves the number, the gap and the suffix. */
  lemma CoreTrimmed(s: string, p: Parts)
    requires Reads(s, p)
    ensures TrimRight(TrimLeft(s)) == p.number + p.gap + p.suffix
  {
    var core := p.number + p.gap + p.suffix;
    assert core[0] == p.number[0];
    CoreEnds(p);
    TrimLeftStops(p.before, core + p.after);
    assert s == p.before + (core + p.after);
    TrimRightStops(core, p.after);
  }

  lemma CoreParsed(s: string, p: Parts)
    requires Reads(s, p)
    ensures CoreSize(Upper(p.number + p.gap + p.suffix)) == if Value(p) > INT64_MAX then None else Some(Value(p))
  {
    var head := p.number + p.gap;
    CoreEnds(p);
    UpperParts(p);
    SuffixFound(head, p.row);
    assert (head + SUFFIXES[p.row])[..|head|] == head;
    TrimRightStops(p.number, p.gap);
  }

  /** Every text of the language is read as the product it denotes, or refused for size. */
  lemma ReadsParsed(s: string, p: Parts)
    requires Reads(s, p)
    ensures ParsedSize(s) == if Value(p) > INT64_MAX then None else Some(Value(p))
  {
    CoreTrimmed(s, p);
    CoreParsed(s, p);
  }

  lemma CoreEnds(p: Parts)
    requires AllDigits(p.number) && p.number != "" && AllSpace(p.gap) && (p.suffix == "" ==> p.gap == "")
    requires p.row <= NO_SUFFIX && Upper(p.suffix) == SUFFIXES[p.row]
    ensures var core := p.number + p.gap + p.suffix; !IsSpace(core[|core| - 1])
    ensures var head := p.number + p.gap;
            IsDigit(head[|head| - 1]) || (IsSpace(head[|head| - 1]) && p.row < NO_SUFFIX)
  {
    if p.suffix != "" {
      var last := |p.suffix| - 1;
      assert Upper(p.suffix)[last] == ToUpper(p.suffix[last]);
    }
  }

  /** What the parser accepts is of the language. */
  lemma ParsedReads(s: string) returns (p: Parts)
    requires ParsedSize(s).Some?
    ensures Reads(s, p) && ParsedSize(s) == Some(Value(p)) && Value(p) <= INT64_MAX
  {
    var before := TrimLeftSplits(s);
    var t := TrimLeft(s);
    var after := TrimRightSplits(t);
    var core := TrimRight(t);
    var number, gap, suffix, k := CoreReads(core);
    p := Parts(before, number, gap, suffix, after, k);
    assert s == before + (core + after) == before + core + after;
  }

  lemma CoreReads(core: string) returns (number: string, gap: string, suffix: string, k: nat)
    requires core != "" && !IsSpace(core[|core| - 1]) && CoreSize(Upper(core)).Some?
    ensures core == number + gap + suffix && number != "" && AllDigits(number) && AllSpace(gap)
    ensures k <= NO_SUFFIX && Upper(suffix) == SUFFIXES[k] && (suffix == "" ==> gap == "")
    ensures CoreSize(Upper(core)) == Some(Natural(number) * MULTIPLES[k])
    ensures Natural(number) * MULTIPLES[k] <= INT64_MAX
  {
    var up := Upper(core);
    k := FirstSuffix(up, 0);
    var cut := |up| - |SUFFIXES[k]|;
    number := TrimRight(up[..cut]);
    gap := TrimRightSplits(up[..cut]);
    suffix := core[cut..];
    CutReads(core, cut, number, gap);
  }

  lemma CutReads(core: string, cut: nat, number: string, gap: string)
    requires cut <= |core| && Upper(core)[..cut] == number + gap && AllDigits(number) && AllSpace(gap)
    requires core != "" && !IsSpace(core[|core| - 1])
    ensures core == number + gap + core[cut..] && Upper(core[cut..]) == Upper(core)[cut..]
    ensures core[cut..] == "" ==> gap == ""
  {
    SameBelowLetters(core, number + gap);
    assert core == core[..cut] + core[cut..];
  }

  /** Digits and blanks in the upper-cased text are the original characters. */
  lemma SameBelowLetters(core: string, head: string)
    requires head <= Upper(core) && forall i :: 0 <= i < |head| ==> IsDigit(head[i]) || IsSpace(head[i])
    ensures head <= core
  {
    forall i | 0 <= i < |head| ensures core[i] == head[i] {
      assert head[i] == Upper(core)[i] == ToUpper(core[i]);
    }
  }

  // ---------------------------------------------------------------- what a suffix multiplies by

  /** The letter alone, with `B`, or with `iB`, in either case. */
  predicate Spells(suffix: string, small: char, large: char) {
    1 <= |suffix| <= 3 && (suffix[0] == small || suffix[0] == large)
    && (|suffix| == 2 ==> suffix[1] == 'b' || suffix[1] == 'B')
    && (|suffix| == 3 ==> (suffix[1] == 'i' || suffix[1] == 'I') && (suffix[2] == 'b' || suffix[2] == 'B'))
  }

  /** A count that does not fit `int64_t` is refused. */
  function Fitting(n: int): Option<int> { if n > 9223372036854775807 then None else Some(n) }

  lemma PlainReads(digits: string, suffix: string, row: nat)
    requires digits != "" && AllDigits(digits) && |digits| + |suffix| < 64
    requires row <= NO_SUFFIX && Upper(suffix) == SUFFIXES[row]
    ensures Reads(digits + suffix, Parts("", digits, "", suffix, "", row))
  {
    assert digits + "" == digits;
    assert "" + (digits + suffix) + "" == digits + suffix;
  }

  lemma SuffixParses(digits: string, suffix: string, row: nat)
    requires digits != "" && AllDigits(digits) && |digits| + |suffix| < 64
    requires row <= NO_SUFFIX && Upper(suffix) == SUFFIXES[row]
    ensures ParsedSize(digits + suffix) == Fitting(Natural(digits) * MULTIPLES[row])
  {
    PlainReads(digits, suffix, row);
    ReadsParsed(digits + suffix, Parts("", digits, "", suffix, "", row));
  }

  lemma SpelledOut(suffix: string, small: char, large: char)
    requires Spells(suffix, small, large) && ToUpper(small) == large && ToUpper(large) == large
    ensures Upper(suffix) == [large] + if |suffix| == 1 then "" else if |suffix| == 2 then "B" else "IB"
  {
  }

  lemma RowOf(suffix: string, small: char, large: char, last: nat)
    requires Spells(suffix, small, large)
    requires || (small == 'k' && large == 'K' && last == 3) || (small == 'm' && large == 'M' && last == 6)
             || (small == 'g' && large == 'G' && last == 9)
    ensures |suffix| <= 3 && Upper(suffix) == SUFFIXES[last - |suffix|]
  {
    SpelledOut(suffix, small, large);
  }

  lemma Rows(length: nat)
    requires 1 <= length <= 3
    ensures MULTIPLES[3 - length] == 1024 && MULTIPLES[6 - length] == 1024 * 1024
    ensures MULTIPLES[9 - length] == 1024 * 1024 * 1024 && MULTIPLES[9] == MULTIPLES[10] == 1
  {
  }

  /** `K`, `KB` and `KiB` multiply by 1024, in any case. */
  lemma KiloMeans(digits: string, suffix: string)
    requires digits != "" && AllDigits(digits) && |digits| + |suffix| < 64 && Spells(suffix, 'k', 'K')
    ensures ParsedSize(digits + suffix) == Fitting(Natural(digits) * 1024)
  {
    RowOf(suffix, 'k', 'K', 3);
    Rows(|suffix|);
    SuffixParses(digits, suffix, 3 - |suffix|);
  }

  /** `M`, `MB` and `MiB` by 1024 times as much. */
  lemma MegaMeans(digits: string, suffix: string)
    requires digits != "" && AllDigits(digits) && |digits| + |suffix| < 64 && Spells(suffix, 'm', 'M')
    ensures ParsedSize(digits + suffix) == Fitting(Natural(digits) * (1024 * 1024))
  {
    RowOf(suffix, 'm', 'M', 6);
    Rows(|suffix|);
    SuffixParses(digits, suffix, 6 - |suffix|);
  }

  /** `G`, `GB` and `GiB` by 1024 times as much again. */
  lemma GigaMeans(digits: string, suffix: string)
    requires digits != "" && AllDigits(digits) && |digits| + |suffix| < 64 && Spells(suffix, 'g', 'G')
    ensures ParsedSize(digits + suffix) == Fitting(Natural(digits) * (1024 * 1024 * 1024))
  {
    RowOf(suffix, 'g', 'G', 9);
    Rows(|suffix|);
    SuffixParses(digits, suffix, 9 - |suffix|);
  }

  /** Digits alone, or with a `B`, are read as they are. */
  lemma BytesMean(digits: string, suffix: string)
    requires digits != "" && AllDigits(digits) && |digits| + |suffix| < 64 && (suffix == "" || suffix == "b" || suffix == "B")
    ensures ParsedSize(digits + suffix) == Fitting(Natural(digits))
  {
    Rows(1);
    SuffixParses(digits, suffix, 10 - |suffix|);
  }

  // ---------------------------------------------------------------- the language without the table

  /** What a suffix multiplies by; 0 if it is none. */
  function Factor(suffix: string): int {
    if suffix == "" || suffix == "b" || suffix == "B" then 1
    else if Spells(suffix, 'k', 'K') then 1024
    else if Spells(suffix, 'm', 'M') then 1024 * 1024
    else if Spells(suffix, 'g', 'G') then 1024 * 1024 * 1024
    else 0
  }

  /** Blanks, at least one digit, blanks, a suffix, blanks; at most 63 characters between the
      outer blanks, and a product that fits a signed 64-bit integer. */
  ghost predicate Denotes(s: string, p: Parts, v: int) {
    && s == p.before + (p.number + p.gap + p.suffix) + p.after
    && AllSpace(p.before) && AllSpace(p.gap) && AllSpace(p.after)
    && p.number != "" && AllDigits(p.number)
    && Factor(p.suffix) > 0 && (p.suffix == "" ==> p.gap == "")
    && |p.number + p.gap + p.suffix| < 64
    && v == Natural(p.number) * Factor(p.suffix) <= 9223372036854775807
  }

  lemma FactorOfRow(suffix: string, row: nat)
    requires row <= NO_SUFFIX && Upper(suffix) == SUFFIXES[row]
    ensures Factor(suffix) == MULTIPLES[row]
  {
    assert forall i :: 0 <= i < |suffix| ==> ToUpper(suffix[i]) == SUFFIXES[row][i];
  }

  lemma RowOfFactor(suffix: string) returns (row: nat)
    requires Factor(suffix) > 0
    ensures row <= NO_SUFFIX && Upper(suffix) == SUFFIXES[row]
  {
    if suffix == "" || suffix == "b" || suffix == "B" {
      row := 10 - |suffix|;
    } else if Spells(suffix, 'k', 'K') {
      RowOf(suffix, 'k', 'K', 3);
      row := 3 - |suffix|;
    } else if Spells(suffix, 'm', 'M') {
      RowOf(suffix, 'm', 'M', 6);
      row := 6 - |suffix|;
    } else {
      RowOf(suffix, 'g', 'G', 9);
      row := 9 - |suffix|;
    }
  }

  lemma ReadsDenotes(s: string, p: Parts)
    requires Reads(s, p) && Value(p) <= INT64_MAX
    ensures Denotes(s, p, Value(p))
  {
    FactorOfRow(p.suffix, p.row);
  }

  lemma DenotesReads(s: string, p: Parts, v: int) returns (q: Parts)
    requires Denotes(s, p, v)
    ensures Reads(s, q) && v == Value(q) && v <= INT64_MAX
  {
    var row := RowOfFactor(p.suffix);
    FactorOfRow(p.suffix, row);
    q := p.(row := row);
  }

  /** The accepted language and the value, both directions. */
  lemma ParseExact(s: string, v: int)
    ensures ParsedSize(s) == Some(v) <==> exists p :: Denotes(s, p, v)
  {
    if ParsedSize(s) == Some(v) {
      var p := ParsedReads(s);
      ReadsDenotes(s, p);
      assert Denotes(s, p, v);
    }
    forall p | Denotes(s, p, v) ensures ParsedSize(s) == Some(v) {
      var q := DenotesReads(s, p, v);
      ReadsParsed(s, q);
    }
  }

  /** Each step of suffixes is 1024 times the one before, where the product fits. */
  lemma SuffixSteps(digits: string, value: int)
    requires digits != "" && AllDigits(digits) && |digits| <= 60 && ParsedSize(digits) == Some(value)
    requires value * (1024 * 1024 * 1024) <= 9223372036854775807
    ensures ParsedSize(digits + "KB") == Some(value * 1024)
    ensures ParsedSize(digits + "MB") == Some(value * (1024 * 1024))
    ensures ParsedSize(digits + "GB") == Some(value * (1024 * 1024 * 1024))
  {
    assert digits + "" == digits;
    BytesMean(digits, "");
    KiloMeans(digits, "KB");
    MegaMeans(digits, "MB");
    GigaMeans(digits, "GB");
  }

  // ---------------------------------------------------------------- blanks

  /** What a character does in front of a count: one of the six blanks is skipped, a digit counts,
      and anything else refuses the text. */
  lemma LeadingCharacter(c: char, digits: string)
    requires digits != "" && AllDigits(digits) && |digits| < 63
    ensures c == ' ' || c == '\t' || c == '\n' || c == 11 as char || c == 12 as char || c == '\r' ==>
              ParsedSize([c] + digits) == ParsedSize(digits)
    ensures !(c == ' ' || c == '\t' || c == '\n' || c == 11 as char || c == 12 as char || c == '\r') && !('0' <= c <= '9') ==>
              ParsedSize([c] + digits) == None
  {
    if IsSpace(c) {
      BlankSkipped(c, digits);
    } else if !IsDigit(c) {
      OtherRefused(c, digits);
    }
  }

  lemma BlankSkipped(c: char, s: string)
    requires IsSpace(c)
    ensures ParsedSize([c] + s) == ParsedSize(s)
  {
    assert ([c] + s)[1..] == s;
    assert TrimLeft([c] + s) == TrimLeft(s);
  }

  lemma OtherRefused(c: char, s: string)
    requires !IsSpace(c) && !IsDigit(c)
    ensures ParsedSize([c] + s) == None
  {
    if ParsedSize([c] + s).Some? {
      var p := ParsedReads([c] + s);
      FirstOf([c] + s, p);
    }
  }

  lemma FirstOf(s: string, p: Parts)
    requires Reads(s, p)
    ensures s != "" && (IsSpace(s[0]) || IsDigit(s[0]))
  {
    if p.before != "" { assert s[0] == p.before[0]; } else { assert s[0] == p.number[0]; }
  }
}
