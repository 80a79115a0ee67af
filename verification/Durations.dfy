/** Durations (loop/size.c): the printer, and the parser of a sequence of numbers each followed
    by a unit. Numbers are exact rationals here, where the parser computes in double
    precision. */
module Durations {
  import opened Basics
  import opened Numerals

  const UNITS: seq<string> := ["ns", "us", "ms", "s", "m", "h"]
  const UNIT_NS: seq<int> := [1, 1_000, 1_000_000, 1_000_000_000, 60_000_000_000, 3600_000_000_000]
  const MILLISECOND: nat := 2
  const SECOND: nat := 3
  const MINUTE: nat := 4
  const HOUR: nat := 5

  /** The largest value the parser accepts. */
  const MAX_NS: int := 9_200_000_000_000_000_000

  const INT64_MAX: int := 0x7FFF_FFFF_FFFF_FFFF

  // ---------------------------------------------------------------- what a text means

  /** One number and its unit. */
  datatype Item = Item(number: Numeral, unit: nat)

  predicate ValidItem(item: Item) { ValidNumeral(item.number) && item.unit < 6 }

  predicate ValidItems(items: seq<Item>) { forall i :: 0 <= i < |items| ==> ValidItem(items[i]) }

  function ItemText(item: Item): string
    requires item.unit < 6
  {
    NumeralText(item.number) + UNITS[item.unit]
  }

  function Text(items: seq<Item>): string
    requires ValidItems(items)
  {
    if items == [] then "" else ItemText(items[0]) + Text(items[1..])
  }

  function ItemValue(item: Item): real
    requires ValidItem(item)
  {
    NumeralValue(item.number) * UNIT_NS[item.unit] as real
  }

  /** Nanoseconds denoted by a sequence of items. */
  function Total(items: seq<Item>): real
    requires ValidItems(items)
  {
    if items == [] then 0.0 else ItemValue(items[0]) + Total(items[1..])
  }

  // ---------------------------------------------------------------- reading a text

  /** Whether unit `k` stands at the start of `s` with no letter after it. */
  predicate UnitMatches(s: string, k: nat)
    requires k < 6
  {
    UNITS[k] <= s && !(|UNITS[k]| < |s| && IsAlpha(s[|UNITS[k]|]))
  }

  function FirstUnit(s: string, k: nat): (u: Option<nat>)
    requires k <= 6
    ensures u.Some? ==> u.value < 6 && UnitMatches(s, u.value)
    decreases 6 - k
  {
    if k == 6 then None else if UnitMatches(s, k) then Some(k) else FirstUnit(s, k + 1)
  }

  function FirstItem(s: string): (item: Option<Item>)
    ensures item.Some? ==> ValidItem(item.value) && ItemText(item.value) <= s && |ItemText(item.value)| > 0
  {
    match ReadNumeral(s)
    case None => None
    case Some(n) =>
      NumeralFits(s);
      var tail := s[|NumeralText(n)|..];
      var u := FirstUnit(tail, 0);
      if u.None? then None
      else
        MantissaFits(s, NumeralText(n), UNITS[u.value]);
        Some(Item(n, u.value))
  }

  /** A reading of a text: items it consists of, at least one. */
  ghost predicate Reading(items: seq<Item>, s: string) { ValidItems(items) && items != [] && Text(items) == s }

  /** The text denotes a duration the parser accepts, `value` nanoseconds when cut to whole
      ones. */
  ghost predicate Parses(s: string, value: int) {
    exists items :: Reading(items, s) && Total(items) <= MAX_NS as real && value == Total(items).Floor
  }

  // ---------------------------------------------------------------- the grammar, exactly

  predicate NoLetter(s: string) { s == "" || !IsAlpha(s[0]) }

  lemma UnitStop(k: nat, rest: string)
    requires k < 6 && NoLetter(rest)
    ensures FirstUnit(UNITS[k] + rest, 0) == Some(k)
  {
    var s := UNITS[k] + rest;
    forall j | 0 <= j < k ensures !UnitMatches(s, j) {
      OtherUnit(j, k, rest);
    }
    assert UNITS[k] <= s;
    FirstUnitIs(s, 0, k);
  }

  lemma PrefixChars(a: string, s: string)
    ensures a <= s ==> |a| <= |s| && forall i :: 0 <= i < |a| ==> a[i] == s[i]
  {
    if a <= s { assert s[..|a|] == a; }
  }

  lemma OtherUnit(j: nat, k: nat, rest: string)
    requires j < k < 6 && NoLetter(rest)
    ensures !UnitMatches(UNITS[k] + rest, j)
  {
    var s := UNITS[k] + rest;
    PrefixChars(UNITS[j], s);
    assert s[0] == UNITS[k][0];
    assert |UNITS[k]| == 1 && rest != "" ==> s[1] == rest[0];
  }

  lemma {:induction false} FirstUnitIs(s: string, from: nat, k: nat)
    requires from <= k < 6 && UnitMatches(s, k)
    requires forall j :: from <= j < k ==> !UnitMatches(s, j)
    ensures FirstUnit(s, from) == Some(k)
    decreases k - from
  {
    if from < k { FirstUnitIs(s, from + 1, k); }
  }

  lemma UnitEnds(k: nat, rest: string)
    requires k < 6
    ensures Ends(UNITS[k] + rest)
  {
    assert (UNITS[k] + rest)[0] == UNITS[k][0];
  }

  lemma FirstItemIs(n: Numeral, tail: string, u: nat)
    requires ReadNumeral(NumeralText(n) + tail) == Some(n) && FirstUnit(tail, 0) == Some(u)
    ensures FirstItem(NumeralText(n) + tail) == Some(Item(n, u))
  {
    Dropped(NumeralText(n), tail);
  }

  lemma FirstItemStop(item: Item, rest: string)
    requires ValidItem(item) && NoLetter(rest)
    ensures FirstItem(ItemText(item) + rest) == Some(item)
  {
    var tail := UNITS[item.unit] + rest;
    UnitEnds(item.unit, rest);
    NumeralStop(item.number, tail);
    UnitStop(item.unit, rest);
    FirstItemIs(item.number, tail, item.unit);
    Regroup(NumeralText(item.number), UNITS[item.unit], rest);
  }

  /** Two items that start the same text are the same. */
  lemma SameHead(a: Item, r: string, b: Item, t: string)
    requires ValidItem(a) && ValidItem(b) && NoLetter(r) && NoLetter(t) && ItemText(a) + r == ItemText(b) + t
    ensures a == b && r == t
  {
    FirstItemStop(a, r);
    FirstItemStop(b, t);
    Dropped(ItemText(a), r);
    Dropped(ItemText(a), t);
  }

  lemma TextStarts(items: seq<Item>)
    requires ValidItems(items)
    ensures NoLetter(Text(items)) && (Text(items) == "" <==> items == [])
  {
    if items != [] {
      NumeralStarts(items[0].number);
      assert Text(items)[0] == NumeralText(items[0].number)[0];
    }
  }

  lemma NextStarts(a: string, t: string)
    requires NoLetter(a) && NoLetter(t)
    ensures NoLetter(a + t)
  {
  }

  /** Two lists of items that start the same text, the shorter one up to a place where no letter
      follows, agree there. */
  lemma {:induction false} CancelItems(before: seq<Item>, items: seq<Item>, t: string)
    requires ValidItems(before) && ValidItems(items) && Text(items) == Text(before) + t
    requires before == [] || NoLetter(t)
    ensures |before| <= |items| && items[..|before|] == before && Text(items[|before|..]) == t
    decreases |before|
  {
    if before == [] {
      assert items[0..] == items && Text(before) + t == t;
    } else {
      TextStarts(before);
      TextStarts(items);
      TextStarts(before[1..]);
      TextStarts(items[1..]);
      var rest := Text(before[1..]) + t;
      Regroup(ItemText(before[0]), Text(before[1..]), t);
      NextStarts(Text(before[1..]), t);
      SameHead(before[0], rest, items[0], Text(items[1..]));
      CancelItems(before[1..], items[1..], t);
      OneLonger(before, items);
    }
  }

  lemma OneLonger(before: seq<Item>, items: seq<Item>)
    requires before != [] && items != [] && before[0] == items[0]
    requires |before[1..]| <= |items[1..]| && items[1..][..|before| - 1] == before[1..]
    ensures items[..|before|] == before && items[|before|..] == items[1..][|before| - 1..]
  {
    assert items[..|before|] == [items[0]] + items[1..][..|before| - 1];
    assert before == [before[0]] + before[1..];
  }

  /** No text has two readings. */
  lemma OneReading(a: seq<Item>, b: seq<Item>, s: string)
    requires Reading(a, s) && Reading(b, s)
    ensures a == b
  {
    assert Text(a) + "" == Text(a);
    CancelItems(a, b, "");
    TextStarts(b[|a|..]);
    assert b[..|b|] == b;
  }

  /** Where no item can be read any more there is no reading. */
  lemma Stuck(before: seq<Item>, t: string, items: seq<Item>)
    requires ValidItems(before) && (before == [] || NoLetter(t)) && t != "" && FirstItem(t).None?
    ensures !Reading(items, Text(before) + t)
  {
    if Reading(items, Text(before) + t) {
      CancelItems(before, items, t);
      var more := items[|before|..];
      assert more != [] && t == ItemText(more[0]) + Text(more[1..]);
      TextStarts(more[1..]);
      FirstItemStop(more[0], Text(more[1..]));
    }
  }

  /** The parsing loop: one number and one unit per round. It accepts exactly the texts with a
      reading that denotes at most `MAX_NS`. */
  method ParseDuration(s: string) returns (r: Option<int>)
    ensures forall value :: r == Some(value) <==> Parses(s, value)
  {
    if s == "" {
      NothingParses(s);
      return None;
    }
    ghost var items;
    var sum;
    sum, items := SumItems(s);
    if sum.None? { return None; }
    ItParses(items, s);
    if sum.value > MAX_NS as real { return None; }
    return Some(sum.value.Floor);
  }

  lemma NothingParses(s: string)
    requires s == ""
    ensures forall items :: !Reading(items, s)
  {
    forall items | ValidItems(items) && items != [] ensures Text(items) != s {
      TextStarts(items);
    }
  }

  /** One reading settles what parses. */
  lemma ItParses(items: seq<Item>, s: string)
    requires Reading(items, s)
    ensures forall value :: Parses(s, value) <==> Total(items) <= MAX_NS as real && value == Total(items).Floor
  {
    forall other | Reading(other, s) ensures other == items {
      OneReading(items, other, s);
    }
  }

  method SumItems(s: string) returns (sum: Option<real>, ghost items: seq<Item>)
    requires s != ""
    ensures sum.Some? ==> Reading(items, s) && sum.value == Total(items)
    ensures sum.None? ==> forall other :: !Reading(other, s)
  {
    var total := 0.0;
    var t := s;
    items := [];
    while t != ""
      invariant ValidItems(items) && Text(items) + t == s && total == Total(items)
      invariant (items == [] || NoLetter(t)) && (t == "" ==> items != [])
      decreases |t|
    {
      var item, rest := ReadItem(t);
      if item.None? {
        forall other ensures !Reading(other, s) {
          Stuck(items, t, other);
        }
        return None, items;
      }
      Taken(items, item.value, rest);
      items, t, total := items + [item.value], rest, total + ItemValue(item.value);
    }
    sum := Some(total);
  }

  lemma Taken(items: seq<Item>, item: Item, rest: string)
    requires ValidItems(items) && ValidItem(item)
    ensures ValidItems(items + [item]) && Total(items + [item]) == Total(items) + ItemValue(item)
    ensures Text(items + [item]) + rest == Text(items) + (ItemText(item) + rest)
  {
    AppendItem(items, item);
    Regroup(Text(items), ItemText(item), rest);
  }

  /** One round: a digit or a point, the number, the unit. */
  method ReadItem(t: string) returns (item: Option<Item>, rest: string)
    requires t != ""
    ensures item == FirstItem(t)
    ensures item.Some? ==> ValidItem(item.value) && t == ItemText(item.value) + rest && |rest| < |t| && NoLetter(rest)
  {
    NumeralFirst(t);
    if !IsDigit(t[0]) && t[0] != '.' {
      return None, "";
    }
    var number := ReadNumeral(t);
    if number.None? { return None, ""; }
    NumeralFits(t);
    var tail := t[|NumeralText(number.value)|..];
    var found := FindUnit(tail);
    if found.None? { return None, ""; }
    item := Some(Item(number.value, found.value));
    rest := tail[|UNITS[found.value]|..];
    ItemTaken(t, item.value, tail, rest);
  }

  lemma ItemTaken(t: string, item: Item, tail: string, rest: string)
    requires ValidItem(item) && NumeralText(item.number) <= t && tail == t[|NumeralText(item.number)|..]
    requires UnitMatches(tail, item.unit) && rest == tail[|UNITS[item.unit]|..]
    ensures t == ItemText(item) + rest && |rest| < |t| && NoLetter(rest)
  {
    assert t == NumeralText(item.number) + tail && tail == UNITS[item.unit] + rest;
    Regroup(NumeralText(item.number), UNITS[item.unit], rest);
  }

  /** The table search: the first row that matches, and none only where no row does. */
  method FindUnit(s: string) returns (u: Option<nat>)
    ensures u == FirstUnit(s, 0)
    ensures u.Some? ==> u.value < 6 && UnitMatches(s, u.value)
    ensures forall k :: 0 <= k < (if u.Some? then u.value else 6) ==> !UnitMatches(s, k)
  {
    for k := 0 to 6
      invariant FirstUnit(s, 0) == FirstUnit(s, k)
      invariant forall j :: 0 <= j < k ==> !UnitMatches(s, j)
    {
      if UnitMatches(s, k) { return Some(k); }
    }
    u := None;
  }

  // ---------------------------------------------------------------- printing

  /** `%lld` of a non-negative value. */
  function Decimal(n: nat): (s: string)
    ensures AllDigits(s) && s != ""
  {
    if n < 10 then [DigitChar(n)] else Decimal(n / 10) + [DigitChar(n % 10)]
  }

  lemma {:induction false} DecimalDenotes(n: nat)
    ensures Natural(Decimal(n)) == n
  {
    if n >= 10 {
      DecimalDenotes(n / 10);
      assert Decimal(n)[..|Decimal(n)| - 1] == Decimal(n / 10);
    } else {
      assert Decimal(n)[..0] == "";
    }
  }

  lemma {:induction false} DecimalFits(n: nat, k: nat)
    requires n < Pow10(k) && k > 0
    ensures |Decimal(n)| <= k
    decreases k
  {
    if n >= 10 { DecimalFits(n / 10, k - 1); }
  }

  /** `%0<k>lld` of a value below `10^k`. */
  function Padded(n: nat, k: nat): (s: string)
    requires n < Pow10(k)
    ensures |s| == k && AllDigits(s)
    decreases n, k
  {
    if k == 0 then "" else Padded(n / 10, k - 1) + [DigitChar(n % 10)]
  }

  lemma {:induction false} PaddedDenotes(n: nat, k: nat)
    requires n < Pow10(k)
    ensures Natural(Padded(n, k)) == n
    decreases k
  {
    if k > 0 {
      PaddedDenotes(n / 10, k - 1);
      assert Padded(n, k)[..k - 1] == Padded(n / 10, k - 1);
    }
  }

  predicate AllZeros(s: string) { forall i :: 0 <= i < |s| ==> s[i] == '0' }

  /** Zeros at the end of a fraction do not count. */
  lemma {:induction false} TrailingZeros(s: string, z: string)
    requires AllDigits(s) && AllZeros(z)
    ensures AllDigits(s + z) && Fraction(s + z) == Fraction(s)
    decreases |s| + |z|
  {
    if z == "" {
      assert s + z == s;
    } else {
      var last := |z| - 1;
      TrailingZeros(s, z[..last]);
      OneZero(s + z[..last]);
      assert s + z == s + z[..last] + "0";
    }
  }

  lemma OneZero(s: string)
    requires AllDigits(s)
    ensures Fraction(s + "0") == Fraction(s)
  {
    assert (s + "0")[..|s|] == s;
    var n, p := Natural(s), Pow10(|s|);
    assert Natural(s + "0") == 10 * n && Pow10(|s| + 1) == 10 * p;
    Cancel(n, p);
  }

  lemma Cancel(n: nat, p: nat)
    requires p > 0
    ensures (10 * n) as real / (10 * p) as real == n as real / p as real
  {
  }

  /** The digits after the point for a remainder below a second, zeros trimmed. */
  ghost predicate IsTrimmed(f: string, nanos: nat) {
    AllDigits(f) && |f| <= 9 && Fraction(f) * 1_000_000_000.0 == nanos as real
    && (f != "" ==> f[|f| - 1] != '0')
  }

  /** The trimming loop over the nine padded digits. */
  method TrimmedFraction(nanos: nat) returns (f: string)
    requires 0 < nanos < 1_000_000_000
    ensures f != "" && IsTrimmed(f, nanos)
  {
    PowersOfTen();
    f := Padded(nanos, 9);
    ghost var zeros := "";
    ghost var all := f;
    PaddedDenotes(nanos, 9);
    while |f| > 0 && f[|f| - 1] == '0'
      invariant all == f + zeros && AllZeros(zeros) && AllDigits(f)
    {
      zeros := [f[|f| - 1]] + zeros;
      f := f[..|f| - 1];
      assert all == f + zeros;
    }
    TrailingZeros(f, zeros);
  }

  lemma PowersOfTen()
    ensures Pow10(2) == 100 && Pow10(3) == 1000 && Pow10(7) == 10_000_000 && Pow10(9) == 1_000_000_000
  {
    assert Pow10(4) == 10_000;
    assert Pow10(6) == 1_000_000;
    assert Pow10(8) == 100_000_000;
  }

  /** `append_fraction`: nothing for zero, else a point and the trimmed digits. */
  method AppendFraction(out: string, nanos: nat) returns (text: string)
    requires nanos < 1_000_000_000
    ensures var f := Appended(out, text);
            && (f.None? <==> nanos == 0)
            && (f.Some? ==> f.value != "" && IsTrimmed(f.value, nanos))
            && text == out + if f.Some? then "." + f.value else ""
  {
    if nanos == 0 { return out; }
    var f := TrimmedFraction(nanos);
    text := out + ("." + f);
    assert text[|out| + 1..] == f;
  }

  /** The fraction behind `out` and its point, if `text` goes on. */
  function Appended(out: string, text: string): Option<string> {
    if |text| <= |out| then None else Some(text[|out| + 1..])
  }

  /** A number as it is printed: decimal, without an exponent. */
  function Plain(whole: string, fraction: Option<string>, unit: nat): Item {
    Item(Numeral("", whole, fraction, ""), unit)
  }

  lemma PlainText(whole: string, fraction: Option<string>, unit: nat)
    requires unit < 6
    ensures ItemText(Plain(whole, fraction, unit)) == whole + (if fraction.Some? then "." + fraction.value else "") + UNITS[unit]
  {
  }

  lemma PlainValue(whole: string, fraction: Option<string>, unit: nat)
    requires unit < 6 && AllDigits(whole) && (fraction.Some? ==> AllDigits(fraction.value)) && whole != ""
    ensures ValidItem(Plain(whole, fraction, unit))
    ensures ItemValue(Plain(whole, fraction, unit)) ==
            (Natural(whole) as real + (if fraction.Some? then Fraction(fraction.value) else 0.0)) * UNIT_NS[unit] as real
  {
  }

  /** The units a magnitude is printed in. */
  function PrintedUnits(n: nat): seq<nat> {
    if n == 0 then [SECOND]
    else if n < 1_000_000_000 then [MILLISECOND]
    else if n < 60_000_000_000 then [SECOND]
    else if n < 3600_000_000_000 then [MINUTE, SECOND]
    else [HOUR, MINUTE, SECOND]
  }

  /** A number without leading zeros, below sixty for minutes and seconds, with a fraction
      only at the end and then without trailing zeros. */
  ghost predicate GoItem(item: Item, unit: nat, last: bool) {
    var n := item.number;
    && ValidItem(item) && item.unit == unit && n.prefix == "" && n.exponent == "" && AllDigits(n.whole)
    && n.whole == Decimal(Natural(n.whole))
    && (unit == MINUTE || unit == SECOND ==> Natural(n.whole) < 60)
    && (n.fraction.Some? ==> last && n.fraction.value != "" && n.fraction.value[|n.fraction.value| - 1] != '0')
  }

  /** The items printed so far follow a list of units. */
  ghost predicate Follows(items: seq<Item>, units: seq<nat>) {
    |items| <= |units| && forall i :: 0 <= i < |items| ==> GoItem(items[i], units[i], i == |units| - 1)
  }

  /** The layout of Go's durations. */
  ghost predicate GoLayout(items: seq<Item>, n: nat) {
    |items| == |PrintedUnits(n)| && Follows(items, PrintedUnits(n))
  }

  /** The printed text denotes exactly the magnitude of the input in that layout and fits 24
      characters, and the parser reads it back unless it is above the parser's limit. */
  method HumanDuration(ns: int) returns (text: string, ghost items: seq<Item>)
    requires -INT64_MAX <= ns <= INT64_MAX
    ensures GoLayout(items, if ns < 0 then -ns else ns) && ValidItems(items) && text == Text(items)
    ensures Total(items) == (if ns < 0 then -ns else ns) as real
    ensures |text| <= 24
    ensures forall value :: Parses(text, value) <==> -MAX_NS <= ns <= MAX_NS && value == if ns < 0 then -ns else ns
  {
    var n: nat := if ns < 0 then -ns else ns;
    if n == 0 {
      text, items := "0s", [Plain("0", None, SECOND)];
      PlainText("0", None, SECOND);
      assert items[0].number.whole[..0] == "";
      OneItem(items[0]);
    } else if n < 1_000_000_000 {
      text, items := HumanMillis(n);
    } else {
      text, items := HumanClock(n);
    }
    WholeParses(items, n);
  }

  /** A text of a whole number of nanoseconds is read as that number, up to the limit. */
  lemma WholeParses(items: seq<Item>, n: nat)
    requires ValidItems(items) && items != [] && Total(items) == n as real
    ensures forall value :: Parses(Text(items), value) <==> n <= MAX_NS && value == n
  {
    ItParses(items, Text(items));
  }

  /** Below one second. */
  method HumanMillis(n: nat) returns (text: string, ghost items: seq<Item>)
    requires 0 < n < 1_000_000_000
    ensures GoLayout(items, n) && ValidItems(items) && text == Text(items)
    ensures Total(items) == n as real
    ensures |text| <= 24
  {
    MillisParts(n);
    var ms, micros := n / 1_000_000, n % 1_000_000;
    text := AppendFraction(Decimal(ms), micros * 1000);
    ghost var fraction := Appended(Decimal(ms), text);
    text := text + "ms";
    ghost var item := Plain(Decimal(ms), fraction, MILLISECOND);
    items := [item];
    PlainText(Decimal(ms), fraction, MILLISECOND);
    MillisDenote(item, fraction, n, ms, micros);
    OneItem(item);
  }

  lemma MillisParts(n: nat)
    requires n < 1_000_000_000
    ensures n / 1_000_000 < 1000 && n % 1_000_000 * 1000 < 1_000_000_000 && |Decimal(n / 1_000_000)| <= 3
  {
    PowersOfTen();
    DecimalFits(n / 1_000_000, 3);
  }

  lemma MillisDenote(item: Item, fraction: Option<string>, n: nat, ms: nat, micros: nat)
    requires n == ms * 1_000_000 + micros && item == Plain(Decimal(ms), fraction, MILLISECOND)
    requires fraction.None? ==> micros == 0
    requires fraction.Some? ==> fraction.value != "" && IsTrimmed(fraction.value, micros * 1000)
    ensures GoItem(item, MILLISECOND, true) && ItemValue(item) == n as real
  {
    DecimalDenotes(ms);
    PlainValue(Decimal(ms), fraction, MILLISECOND);
    assert UNIT_NS[item.unit] == 1_000_000;
  }

  /** One second and more: hours when there are any, minutes when there are hours or any
      minutes, then seconds and their fraction. */
  method HumanClock(n: nat) returns (text: string, ghost items: seq<Item>)
    requires 1_000_000_000 <= n <= INT64_MAX
    ensures GoLayout(items, n) && ValidItems(items) && text == Text(items)
    ensures Total(items) == n as real
    ensures |text| <= 24
  {
    ClockParts(n);
    var hours, rem := n / 3600_000_000_000, n % 3600_000_000_000;
    var minutes, rest := rem / 60_000_000_000, rem % 60_000_000_000;
    text, items := ClockText(n, hours, minutes, rest / 1_000_000_000, rest % 1_000_000_000);
  }

  method ClockText(ghost n: nat, hours: nat, minutes: nat, seconds: nat, nanos: nat)
    returns (text: string, ghost items: seq<Item>)
    requires n == hours * 3600_000_000_000 + minutes * 60_000_000_000 + seconds * 1_000_000_000 + nanos >= 1_000_000_000
    requires hours < 10_000_000 && minutes < 60 && seconds < 60 && nanos < 1_000_000_000
    ensures GoLayout(items, n) && ValidItems(items) && text == Text(items)
    ensures Total(items) == n as real
    ensures |text| <= 24
  {
    PowersOfTen();
    text, items := "", [];
    ghost var units := PrintedUnits(n);
    if hours > 0 {
      text, items := AppendWhole(text, items, units, 0, hours, HOUR, 7);
    }
    if hours > 0 || minutes > 0 {
      text, items := AppendWhole(text, items, units, hours * 3600_000_000_000, minutes, MINUTE, 2);
    }
    text, items := AppendSeconds(text, items, units, hours * 3600_000_000_000 + minutes * 60_000_000_000,
                                 seconds, nanos);
  }

  lemma ClockParts(n: nat)
    requires n <= INT64_MAX
    ensures var rem := n % 3600_000_000_000;
            var rest := rem % 60_000_000_000;
            && n / 3600_000_000_000 < 10_000_000 && rem / 60_000_000_000 < 60 && rest / 1_000_000_000 < 60
            && n == n / 3600_000_000_000 * 3600_000_000_000 + rem / 60_000_000_000 * 60_000_000_000
                    + rest / 1_000_000_000 * 1_000_000_000 + rest % 1_000_000_000
  {
  }

  method AppendWhole(out: string, ghost before: seq<Item>, ghost units: seq<nat>, ghost sum: nat,
                     count: nat, unit: nat, width: nat)
    returns (text: string, ghost items: seq<Item>)
    requires ValidItems(before) && out == Text(before) && Total(before) == sum as real
    requires Follows(before, units) && |before| < |units| - 1 && units[|before|] == unit
    requires unit < 6 && width > 0 && count < Pow10(width) && (unit == MINUTE ==> count < 60) && unit != SECOND
    ensures ValidItems(items) && text == Text(items) && Total(items) == (sum + count * UNIT_NS[unit]) as real
    ensures Follows(items, units) && |items| == |before| + 1
    ensures |text| <= |out| + width + |UNITS[unit]|
  {
    var digits := Decimal(count);
    text := out + (digits + UNITS[unit]);
    ghost var item := Plain(digits, None, unit);
    items := before + [item];
    DecimalDenotes(count);
    DecimalFits(count, width);
    WholeDenotes(item, count, unit);
    Extend(before, item, units, sum, count * UNIT_NS[unit]);
  }

  lemma WholeDenotes(item: Item, count: nat, unit: nat)
    requires unit < 6 && item == Plain(Decimal(count), None, unit) && Natural(Decimal(count)) == count
    ensures ValidItem(item) && ItemValue(item) == (count * UNIT_NS[unit]) as real
    ensures ItemText(item) == Decimal(count) + UNITS[unit]
  {
    PlainText(Decimal(count), None, unit);
    PlainValue(Decimal(count), None, unit);
  }

  method AppendSeconds(out: string, ghost before: seq<Item>, ghost units: seq<nat>, ghost sum: nat,
                       seconds: nat, nanos: nat)
    returns (text: string, ghost items: seq<Item>)
    requires ValidItems(before) && out == Text(before) && Total(before) == sum as real
    requires Follows(before, units) && |before| == |units| - 1 && units[|before|] == SECOND
    requires seconds < 60 && nanos < 1_000_000_000
    ensures ValidItems(items) && text == Text(items)
    ensures Total(items) == (sum + seconds * 1_000_000_000 + nanos) as real
    ensures Follows(items, units) && |items| == |units|
    ensures |text| <= |out| + 13
  {
    ghost var item;
    text, item := SecondsText(out, seconds, nanos);
    items := before + [item];
    Extend(before, item, units, sum, seconds * 1_000_000_000 + nanos);
  }

  /** The last number, its fraction and its unit. */
  method SecondsText(out: string, seconds: nat, nanos: nat) returns (text: string, ghost item: Item)
    requires seconds < 60 && nanos < 1_000_000_000
    ensures GoItem(item, SECOND, true) && ItemValue(item) == (seconds * 1_000_000_000 + nanos) as real
    ensures text == out + ItemText(item) && |text| <= |out| + 13
  {
    text := AppendFraction(out + Decimal(seconds), nanos);
    ghost var fraction := Appended(out + Decimal(seconds), text);
    text := text + "s";
    item := Plain(Decimal(seconds), fraction, SECOND);
    PowersOfTen();
    DecimalFits(seconds, 2);
    PlainText(Decimal(seconds), fraction, SECOND);
    SecondsDenote(item, fraction, seconds, nanos);
    assert text == out + ItemText(item);
  }

  /** One more item in its place. */
  lemma Extend(before: seq<Item>, item: Item, units: seq<nat>, sum: nat, amount: nat)
    requires ValidItems(before) && Follows(before, units) && |before| < |units|
    requires GoItem(item, units[|before|], |before| == |units| - 1)
    requires Total(before) == sum as real && ItemValue(item) == amount as real
    ensures var items := before + [item];
            && ValidItems(items) && Follows(items, units)
            && Text(items) == Text(before) + ItemText(item) && Total(items) == (sum + amount) as real
  {
    AppendItem(before, item);
    FollowsNext(before, item, units);
  }

  lemma FollowsNext(before: seq<Item>, item: Item, units: seq<nat>)
    requires Follows(before, units) && |before| < |units|
    requires GoItem(item, units[|before|], |before| == |units| - 1)
    ensures Follows(before + [item], units)
  {
    var items := before + [item];
    forall i | 0 <= i < |items| ensures GoItem(items[i], units[i], i == |units| - 1) {
      if i < |before| { assert items[i] == before[i]; }
    }
  }

  lemma SecondsDenote(item: Item, fraction: Option<string>, seconds: nat, nanos: nat)
    requires item == Plain(Decimal(seconds), fraction, SECOND)
    requires fraction.None? ==> nanos == 0
    requires fraction.Some? ==> fraction.value != "" && IsTrimmed(fraction.value, nanos)
    ensures ValidItem(item) && ItemValue(item) == (seconds * 1_000_000_000 + nanos) as real
    ensures Natural(Decimal(seconds)) == seconds
  {
    DecimalDenotes(seconds);
    PlainValue(Decimal(seconds), fraction, SECOND);
    assert UNIT_NS[item.unit] == 1_000_000_000;
  }

  lemma {:induction false} AppendItem(items: seq<Item>, item: Item)
    requires ValidItems(items) && ValidItem(item)
    ensures ValidItems(items + [item])
    ensures Text(items + [item]) == Text(items) + ItemText(item)
    ensures Total(items + [item]) == Total(items) + ItemValue(item)
  {
    if items == [] {
      OneItem(item);
    } else {
      assert (items + [item])[1..] == items[1..] + [item];
      AppendItem(items[1..], item);
    }
  }

  lemma OneItem(item: Item)
    requires ValidItem(item)
    ensures Text([item]) == ItemText(item) && Total([item]) == ItemValue(item)
  {
  }

  // ---------------------------------------------------------------- what a unit stands for

  lemma UnitParses(n: Numeral, k: nat, unit: string, nanoseconds: int)
    requires ValidNumeral(n) && k < 6 && UNITS[k] == unit && UNIT_NS[k] == nanoseconds
    ensures var total := NumeralValue(n) * nanoseconds as real;
            forall value :: Parses(NumeralText(n) + unit, value) <==>
              total <= 9_200_000_000_000_000_000.0 && value == total.Floor
  {
    OneItem(Item(n, k));
    ItParses([Item(n, k)], NumeralText(n) + unit);
  }

  /** The units and their nanoseconds. */
  predicate IsUnit(unit: string, nanoseconds: int) {
    || (unit == "ns" && nanoseconds == 1) || (unit == "us" && nanoseconds == 1000)
    || (unit == "ms" && nanoseconds == 1000 * 1000) || (unit == "s" && nanoseconds == 1000 * 1000 * 1000)
    || (unit == "m" && nanoseconds == 60 * 1000 * 1000 * 1000)
    || (unit == "h" && nanoseconds == 60 * 60 * 1000 * 1000 * 1000)
  }

  lemma UnitRow(unit: string, nanoseconds: int) returns (k: nat)
    requires IsUnit(unit, nanoseconds)
    ensures k < 6 && UNITS[k] == unit && UNIT_NS[k] == nanoseconds
  {
    k := if unit == "ns" then 0 else if unit == "us" then 1 else if unit == "ms" then 2
         else if unit == "s" then 3 else if unit == "m" then 4 else 5;
  }

  /** A number and its unit denote the number times the nanoseconds of the unit. */
  lemma UnitMeans(n: Numeral, unit: string, nanoseconds: int)
    requires ValidNumeral(n) && IsUnit(unit, nanoseconds)
    ensures var total := NumeralValue(n) * nanoseconds as real;
            forall value :: Parses(NumeralText(n) + unit, value) <==>
              total <= 9_200_000_000_000_000_000.0 && value == total.Floor
  {
    var k := UnitRow(unit, nanoseconds);
    UnitParses(n, k, unit, nanoseconds);
  }

  /** A unit counts only where no letter follows it, of either case. */
  lemma LetterBlocks(k: nat, c: char, rest: string)
    requires k < 6
    ensures UnitMatches(UNITS[k] + ([c] + rest), k) <==> !('a' <= c <= 'z') && !('A' <= c <= 'Z')
  {
    assert (UNITS[k] + ([c] + rest))[|UNITS[k]|] == c;
    assert UNITS[k] <= UNITS[k] + ([c] + rest);
  }
}
