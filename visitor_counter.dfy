/** The visitor counter kept in the browser's storage
    (client/src/lib/visitor-counter.ts). Counts are what `parseInt` reads
    back, so a stored text that is not a number shows up as NaN. */
module VisitorCounter {
  import opened Wrappers
  import opened Text
  import opened BrowserStore

  /** `visitor_<now>_<random>`, where `random` stands for the nine base-36
      characters drawn from `Math.random`. */
  function VisitorIdOf(now: nat, random: string): (id: string)
    ensures StartsWith(id, "visitor_") && id != ""
  {
    "visitor_" + NatToString(now) + "_" + random
  }

  /** A stored text is truthy when present and not "". */
  predicate Truthy(v: Option<string>) {
    v.Some? && v.value != ""
  }

  /** `getItem(key) || fallback`. */
  function OrDefault(v: Option<string>, fallback: string): string {
    if Truthy(v) then v.value else fallback
  }

  /** `count++` on a number that may be NaN. */
  function Increment(p: Parsed): Parsed {
    if p.Num? then Num(p.value + 1) else NaN
  }

  /** `count.toString()`. */
  function NumberText(p: Parsed): string {
    if p.Num? then IntToString(p.value) else "NaN"
  }

  /** Writing a count and reading it back gives the same count, NaN
      included. */
  lemma {:induction false} NumberTextRoundTrip(p: Parsed)
    ensures ParseInt(NumberText(p)) == p
  {
    if p.Num? {
      ParseIntOfIntToString(p.value);
    } else {
      assert TrimStart("NaN") == "NaN";
      assert DigitRun("NaN") == 0;
    }
  }

  lemma ParseZero()
    ensures ParseInt("0") == Num(0)
  {
    ParseIntOfIntToString(0);
    assert IntToString(0) == "0";
  }

  /** `initializeVisitorCounter`: a visitor without a (truthy) id gets one
      and raises the count by one, from 0 when there is none; every call
      stamps the last visit; the result is the stored count read back (1
      when there is none), or 0 when the store is blocked. */
  method Initialize(ls: LocalStorage, now: nat, random: string) returns (count: Parsed)
    modifies ls
    ensures ls.QuizKeys() == old(ls.QuizKeys())
    ensures ls.blocked ==> count == Num(0) && ls.VisitorKeys() == old(ls.VisitorKeys())
    ensures !ls.blocked ==> Truthy(ls.visitorId) && ls.lastVisit == Some(NatToString(now))
    ensures !ls.blocked ==> count == ParseInt(OrDefault(ls.visitorCount, "1"))
    ensures !ls.blocked && Truthy(old(ls.visitorId)) ==>
      ls.visitorId == old(ls.visitorId) && ls.visitorCount == old(ls.visitorCount)
    ensures !ls.blocked && !Truthy(old(ls.visitorId)) ==>
      ls.visitorId == Some(VisitorIdOf(now, random))
      && ls.visitorCount == Some(NumberText(Increment(ParseInt(OrDefault(old(ls.visitorCount), "0")))))
      && count == Increment(ParseInt(OrDefault(old(ls.visitorCount), "0")))
    ensures !ls.blocked && old(ls.VisitorKeys()) == (None, None, None) ==> count == Num(1)
  {
    if ls.blocked {
      return Num(0);
    }
    var visitorId := ls.visitorId;
    if !Truthy(visitorId) {
      visitorId := Some(VisitorIdOf(now, random));
      ls.visitorId := visitorId;
      var c := ParseInt(OrDefault(ls.visitorCount, "0"));
      c := Increment(c);
      ls.visitorCount := Some(NumberText(c));
      NumberTextRoundTrip(c);
      ParseZero();
    }
    ls.lastVisit := Some(NatToString(now));
    count := ParseInt(OrDefault(ls.visitorCount, "1"));
  }

  /** `getVisitorCount`: the stored count, 0 when there is none or the
      store is blocked. */
  method GetVisitorCount(ls: LocalStorage) returns (count: Parsed)
    ensures ls.blocked || !Truthy(ls.visitorCount) ==> count == Num(0)
    ensures !ls.blocked && Truthy(ls.visitorCount) ==> count == ParseInt(ls.visitorCount.value)
  {
    if ls.blocked {
      return Num(0);
    }
    count := ParseInt(OrDefault(ls.visitorCount, "0"));
    ParseZero();
  }

  /** `resetVisitorCounter`: the three keys removed (nothing removed when
      the store is blocked: the first removal throws). */
  method Reset(ls: LocalStorage)
    modifies ls
    ensures ls.QuizKeys() == old(ls.QuizKeys())
    ensures ls.blocked ==> ls.VisitorKeys() == old(ls.VisitorKeys())
    ensures !ls.blocked ==> ls.VisitorKeys() == (None, None, None)
  {
    if !ls.blocked {
      ls.visitorCount := None;
      ls.visitorId := None;
      ls.lastVisit := None;
    }
  }

  /** After a reset, the next visit counts as the first: the count is 1. */
  method ResetThenInitialize(ls: LocalStorage, now: nat, random: string) returns (count: Parsed)
    modifies ls
    ensures !ls.blocked ==> count == Num(1) && ls.visitorCount == Some("1")
    ensures ls.blocked ==> count == Num(0)
  {
    Reset(ls);
    count := Initialize(ls, now, random);
    ParseZero();
    assert NumberText(Num(1)) == "1";
  }

  /** A second visit from the same browser leaves the count as the first
      visit left it and reports the same count. */
  method InitializeTwice(ls: LocalStorage, now1: nat, now2: nat, random1: string, random2: string)
    returns (first: Parsed, second: Parsed)
    modifies ls
    ensures second == first
    ensures !ls.blocked ==> ls.lastVisit == Some(NatToString(now2))
  {
    first := Initialize(ls, now1, random1);
    var countAfterFirst := ls.visitorCount;
    second := Initialize(ls, now2, random2);
    assert ls.visitorCount == countAfterFirst;
  }

  /** Three decimal digits, with leading zeros. */
  function Pad3(k: nat): (s: string)
    requires k < 1000
    ensures |s| == 3 && AllDigits(s) && DecimalValue(s) == k
  {
    var s := [DigitChar(k / 100), DigitChar(k / 10 % 10), DigitChar(k % 10)];
    assert s[..2] == [DigitChar(k / 100), DigitChar(k / 10 % 10)] && s[..2][..1] == [DigitChar(k / 100)];
    assert DecimalValue(s[..2][..1]) == k / 100;
    assert DecimalValue(s[..2]) == k / 10;
    s
  }

  /** `toLocaleString()` of a natural number in the en-US locale: decimal
      digits grouped by threes with commas. */
  function Grouped(n: nat): string
    decreases n
  {
    if n < 1000 then NatToString(n) else Grouped(n / 1000) + "," + Pad3(n % 1000)
  }

  /** The text with its commas removed. */
  function Ungrouped(s: string): (r: string)
    ensures ',' !in r && |r| <= |s|
  {
    if s == [] then []
    else (if s[0] == ',' then [] else [s[0]]) + Ungrouped(s[1..])
  }

  lemma {:induction false} UngroupedAppend(a: string, b: string)
    ensures Ungrouped(a + b) == Ungrouped(a) + Ungrouped(b)
    decreases |a|
  {
    if a == [] {
      assert a + b == b;
    } else {
      assert (a + b)[0] == a[0] && (a + b)[1..] == a[1..] + b;
      UngroupedAppend(a[1..], b);
      var head := if a[0] == ',' then [] else [a[0]];
      assert head + (Ungrouped(a[1..]) + Ungrouped(b)) == (head + Ungrouped(a[1..])) + Ungrouped(b);
    }
  }

  lemma UngroupedDigits(s: string)
    requires AllDigits(s)
    ensures Ungrouped(s) == s
  {
    if s != [] {
      assert AllDigits(s[1..]);
      UngroupedDigits(s[1..]);
    }
  }

  /** The decimal text of a number of at least 1000 is that of its
      thousands followed by its last three digits. */
  lemma NatToStringThousands(n: nat)
    requires n >= 1000
    ensures NatToString(n) == NatToString(n / 1000) + Pad3(n % 1000)
  {
    var q, r := n / 1000, n % 1000;
    assert n / 10 == 100 * q + r / 10;
    assert n / 100 == 10 * q + r / 100;
    assert (n / 100) / 10 == q && (n / 10) / 10 == n / 100;
    assert n % 10 == r % 10 && (n / 10) % 10 == r / 10 % 10 && (n / 100) % 10 == r / 100;
    assert NatToString(n / 100) == NatToString(q) + [DigitChar(r / 100)];
  }

  lemma {:induction false} NatToStringShort(n: nat)
    requires n < 1000
    ensures 1 <= |NatToString(n)| <= 3
  {
    if n >= 10 {
      NatToStringShort(n / 10);
      if n >= 100 {
        assert |NatToString(n / 10)| == 2 by { assert n / 10 / 10 < 10; }
      }
    }
  }

  /** Commas exactly every four places counted from the end, so the first
      group has one to three characters and every later group three. */
  predicate CommasEveryFour(g: string) {
    forall i :: 0 <= i < |g| ==> (g[i] == ',' <==> (|g| - i) % 4 == 0)
  }

  /** Every character that is not a comma is a digit. */
  predicate DigitsBetween(g: string) {
    forall i :: 0 <= i < |g| && g[i] != ',' ==> IsDigit(g[i])
  }

  /** Without its commas the grouped text is the decimal text of `n`. */
  lemma {:induction false} GroupedDigits(n: nat)
    ensures Ungrouped(Grouped(n)) == NatToString(n)
    decreases n
  {
    if n < 1000 {
      NatToStringDigits(n);
      UngroupedDigits(NatToString(n));
    } else {
      var h := Grouped(n / 1000);
      var p := Pad3(n % 1000);
      GroupedDigits(n / 1000);
      assert Grouped(n) == (h + ",") + p;
      UngroupedAppend(h + ",", p);
      UngroupedAppend(h, ",");
      UngroupedDigits(p);
      assert Ungrouped(",") == [];
      NatToStringThousands(n);
    }
  }

  /** One more group keeps the commas every four places and digits between. */
  lemma GroupStep(h: string, p: string)
    requires CommasEveryFour(h) && DigitsBetween(h)
    requires |p| == 3 && AllDigits(p)
    ensures CommasEveryFour(h + "," + p) && DigitsBetween(h + "," + p)
  {
    var g := h + "," + p;
    forall i | 0 <= i < |g|
      ensures g[i] == ',' <==> (|g| - i) % 4 == 0
      ensures g[i] != ',' ==> IsDigit(g[i])
    {
      if i < |h| {
        assert g[i] == h[i] && |g| - i == (|h| - i) + 4;
      } else if i > |h| {
        assert g[i] == p[i - |h| - 1] && 1 <= |g| - i <= 3;
      }
    }
  }

  /** The commas of the grouped text sit every four places from the end,
      with digits between them. */
  lemma {:induction false} GroupedShape(n: nat)
    ensures CommasEveryFour(Grouped(n)) && DigitsBetween(Grouped(n))
    decreases n
  {
    if n < 1000 {
      NatToStringDigits(n);
      NatToStringShort(n);
    } else {
      GroupedShape(n / 1000);
      GroupStep(Grouped(n / 1000), Pad3(n % 1000));
    }
  }

  /** The locale text of a count: "NaN", or the grouped digits with a
      leading "-" for a negative count. */
  function CountText(count: Parsed): (t: string)
    ensures count.NaN? ==> t == "NaN"
    ensures count.Num? && count.value >= 0 ==> t == Grouped(count.value)
    ensures count.Num? && count.value < 0 ==> t == "-" + Grouped(-count.value)
  {
    if count.NaN? then "NaN"
    else if count.value < 0 then "-" + Grouped(-count.value)
    else Grouped(count.value)
  }

  /** `formatVisitorCount`: "1 visitor" for exactly one, otherwise the
      locale-formatted count followed by " visitors". */
  function FormatVisitorCount(count: Parsed): (s: string)
    ensures count == Num(1) <==> s == "1 visitor"
    ensures count != Num(1) ==> s == CountText(count) + " visitors"
    ensures count != Num(1) ==> EndsWith(s, " visitors")
  {
    if count == Num(1) then "1 visitor"
    else
      var s := CountText(count) + " visitors";
      assert s[|s| - 9..] == " visitors";
      s
  }

  lemma FormatSmallCounts()
    ensures FormatVisitorCount(Num(0)) == "0 visitors"
    ensures FormatVisitorCount(Num(2)) == "2 visitors"
  {
  }

  lemma FormatThousands()
    ensures FormatVisitorCount(Num(1234)) == "1,234 visitors"
  {
    assert Grouped(1234) == "1,234" by {
      assert Pad3(234) == "234";
    }
  }
}
