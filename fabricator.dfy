/** The control skeleton of `permute_data_format` (main.py:26-61): which
    generator call answers which tag, how the result is formatted, and
    when the original value comes back instead.

    Faker and dateutil are foreign and random; each call is represented by
    what it yields for this invocation, bundled in a `Generator`. `Raised`
    stands for the call raising an exception. */
module Fabricator {
  import opened Text
  import opened Detector

  datatype Outcome<T> = Returned(value: T) | Raised

  type Year = y: int | 1000 <= y <= 9999 witness 1000
  type Month = m: int | 1 <= m <= 12 witness 1
  type Day = d: int | 1 <= d <= 31 witness 1

  /** The calendar part of the datetime that `date_time_this_decade()`
      returns (a year of the current decade has four digits). */
  datatype CalendarDate = CalendarDate(year: Year, month: Month, day: Day)

  /** `random_number(digits=3)` and `random_number(digits=2)` return an
      integer with at most that many digits. */
  type Below1000 = n: nat | n < 1000
  type Below100 = n: nat | n < 100

  /** What the foreign calls of one invocation yield. `parsesAsDate(s)`
      says whether `dateutil.parser.parse(s)` returns (importing dateutil
      included); `parsesAsFloat(s)` whether `float(s)` does. The number
      that `float` computes is discarded by the source and not modelled. */
  datatype Generator = Generator(
    parsesAsDate: string -> bool,
    dateThisDecade: Outcome<CalendarDate>,
    parsesAsFloat: string -> bool,
    wholeUnits: Outcome<Below1000>,
    cents: Outcome<Below100>,
    phoneNumber: Outcome<string>,
    randomString: nat -> Outcome<string>)

  // ---------------------------------------------------------------------
  // Decimal formatting
  // ---------------------------------------------------------------------

  function DigitChar(n: nat): (c: char)
    requires n < 10
    ensures IsDigit(c) && (c as int) - ('0' as int) == n
  {
    (('0' as int) + n) as char
  }

  /** The number a string of decimal digits denotes. */
  function DigitsValue(s: string): nat
    requires forall k :: 0 <= k < |s| ==> IsDigit(s[k])
  {
    if s == [] then 0
    else
      var last := s[|s| - 1];
      assert IsDigit(last);
      DigitsValue(s[..|s| - 1]) * 10 + ((last as int) - ('0' as int))
  }

  function Pow10(n: nat): (r: nat)
    ensures r >= 1
  {
    if n == 0 then 1 else 10 * Pow10(n - 1)
  }

  /** `str(n)` for a non-negative integer: decimal digits without leading
      zeros, denoting `n`. */
  function Dec(n: nat): (r: string)
    ensures 1 <= |r| && forall k :: 0 <= k < |r| ==> IsDigit(r[k])
    ensures DigitsValue(r) == n
    ensures r[0] == '0' ==> r == "0"
  {
    if n < 10 then [DigitChar(n)]
    else
      var r := Dec(n / 10) + [DigitChar(n % 10)];
      assert r[..|r| - 1] == Dec(n / 10);
      r
  }

  /** `n` in exactly `width` digits, zero-filled on the left, as the `%Y`,
      `%m` and `%d` directives of `strftime` print it. */
  function Pad(n: nat, width: nat): (r: string)
    requires n < Pow10(width)
    ensures |r| == width && forall k :: 0 <= k < |r| ==> IsDigit(r[k])
    ensures DigitsValue(r) == n
  {
    if width == 0 then []
    else
      var r := Pad(n / 10, width - 1) + [DigitChar(n % 10)];
      assert r[..|r| - 1] == Pad(n / 10, width - 1);
      r
  }

  /** `strftime('%Y-%m-%d')`. */
  function FormatIso(d: CalendarDate): (r: string)
    ensures |r| == 10 && IsoDatePrefix(r)
    ensures DigitsValue(r[..4]) == d.year && DigitsValue(r[5..7]) == d.month && DigitsValue(r[8..]) == d.day
  {
    assert Pow10(4) == 10000 && Pow10(2) == 100;
    var y := Pad(d.year as nat, 4);
    var m := Pad(d.month as nat, 2);
    var dd := Pad(d.day as nat, 2);
    var r := y + "-" + m + "-" + dd;
    assert r[..4] == y && r[5..7] == m && r[8..] == dd;
    r
  }

  /** `f"${units}.{cents}"`: no zero-filling, so 7 cents prints as `.7`. */
  function FormatAmount(units: Below1000, cents: Below100): (r: string)
    ensures 4 <= |r| <= 7
    ensures CurrencyPrefix(r)
    ensures exists p :: 1 < p < |r| && r[p] == '.' && r[1..p] == Dec(units) && r[p + 1..] == Dec(cents)
  {
    var u := Dec(units);
    var c := Dec(cents);
    assert Pow10(3) == 1000 && Pow10(2) == 100;
    DecLength(units, 3);
    DecLength(cents, 2);
    var head := "$" + u;
    var r := head + ("." + c);
    var p := |u| + 1;
    assert r[..p] == head && r[p..] == "." + c;
    assert r[p] == '.' && r[1..p] == head[1..] == u && r[p + 1..] == ("." + c)[1..] == c;
    assert r == "$" + u + "." + c;
    r
  }

  /** A number below `10^w` prints in at most `w` digits. */
  lemma {:induction false} DecLength(n: nat, w: nat)
    requires 1 <= w && n < Pow10(w)
    ensures |Dec(n)| <= w
  {
    if n >= 10 {
      assert w >= 2;
      DecLength(n / 10, w - 1);
    }
  }

  /** `data.replace('$', '').replace(',', '')`: the string handed to
      `float`, which by `Without`'s contract holds no `$` and no `,` and
      keeps the count of every other character. */
  function CleanAmount(data: string): (r: string)
    ensures r == Without(Without(data, '$'), ',')
  {
    var once := ReplaceAll(data, "$", "");
    RemoveChar(data, '$');
    RemoveChar(once, ',');
    ReplaceAll(once, ",", "")
  }

  // ---------------------------------------------------------------------
  // The fabricator
  // ---------------------------------------------------------------------

  /** The body of the `try` (main.py:39-61) with the generator `g`: each
      branch either returns its generated value or, when a call it depends
      on raises, the original `data`. */
  function FabricateWith(data: string, tag: Tag, g: Generator): string {
    match tag
    case Date =>
      if !g.parsesAsDate(data) then data
      else if g.dateThisDecade.Raised? then data
      else FormatIso(g.dateThisDecade.value)
    case Currency =>
      if !g.parsesAsFloat(CleanAmount(data)) then data
      else if g.wholeUnits.Raised? || g.cents.Raised? then data
      else FormatAmount(g.wholeUnits.value, g.cents.value)
    case Telephone =>
      if g.phoneNumber.Raised? then data else g.phoneNumber.value
    case Unknown =>
      match g.randomString(|data|)
      case Raised => data
      case Returned(v) => v
  }

  /** `permute_data_format(data, tag, locale)`. `faker` is what `Faker(locale)`
      yields; that call precedes the `try`, so its exception leaves the
      function. */
  function Fabricate(data: string, tag: Tag, faker: Outcome<Generator>): (r: Outcome<string>)
    ensures r.Raised? <==> faker.Raised?
  {
    match faker
    case Raised => Raised
    case Returned(g) => Returned(FabricateWith(data, tag, g))
  }

  // ---------------------------------------------------------------------
  // What the fabricator promises
  // ---------------------------------------------------------------------

  /** The date branch: the original value when parsing or generation
      fails, otherwise a fresh `YYYY-MM-DD` date that the detector
      classifies as a date again; the input is only parsed, never copied. */
  lemma DateBranch(data: string, g: Generator)
    ensures !g.parsesAsDate(data) || g.dateThisDecade.Raised? ==> FabricateWith(data, Date, g) == data
    ensures g.parsesAsDate(data) && g.dateThisDecade.Returned? ==>
      FabricateWith(data, Date, g) == FormatIso(g.dateThisDecade.value) &&
      Detect(FabricateWith(data, Date, g)) == Date
    ensures g.parsesAsDate(data) && g.dateThisDecade.Returned? ==>
      forall other :: g.parsesAsDate(other) ==> FabricateWith(other, Date, g) == FabricateWith(data, Date, g)
  {
    if g.parsesAsDate(data) && g.dateThisDecade.Returned? {
      var r := FormatIso(g.dateThisDecade.value);
      StripUnchanged(r);
    }
  }

  /** The currency branch: the original value when `float` rejects the
      cleaned amount or a number cannot be drawn, otherwise `$units.cents`,
      which the detector classifies as currency again. */
  lemma CurrencyBranch(data: string, g: Generator)
    ensures !g.parsesAsFloat(CleanAmount(data)) || g.wholeUnits.Raised? || g.cents.Raised? ==>
      FabricateWith(data, Currency, g) == data
    ensures g.parsesAsFloat(CleanAmount(data)) && g.wholeUnits.Returned? && g.cents.Returned? ==>
      FabricateWith(data, Currency, g) == FormatAmount(g.wholeUnits.value, g.cents.value) &&
      Detect(FabricateWith(data, Currency, g)) == Currency
  {
    if g.parsesAsFloat(CleanAmount(data)) && g.wholeUnits.Returned? && g.cents.Returned? {
      var r := FormatAmount(g.wholeUnits.value, g.cents.value);
      var u := Dec(g.wholeUnits.value);
      var c := Dec(g.cents.value);
      assert r == "$" + u + "." + c;
      assert r[|r| - 1] == c[|c| - 1];
      StripUnchanged(r);
    }
  }

  /** The telephone branch returns the input when generation fails, and
      otherwise the number `phone_number()` produced, which does not depend
      on the input at all. */
  lemma TelephoneBranch(data: string, g: Generator)
    ensures g.phoneNumber.Raised? ==> FabricateWith(data, Telephone, g) == data
    ensures g.phoneNumber.Returned? ==> FabricateWith(data, Telephone, g) == g.phoneNumber.value
    ensures g.phoneNumber.Returned? ==>
      forall other :: FabricateWith(other, Telephone, g) == FabricateWith(data, Telephone, g)
  {
  }

  /** A generator whose `pystr(min_chars=n, max_chars=n)` keeps its promise
      of exactly `n` characters. */
  ghost predicate HonoursLength(g: Generator) {
    forall n: nat :: g.randomString(n).Returned? ==> |g.randomString(n).value| == n
  }

  /** Any other tag asks for a random string of the input's length: the
      original value comes back when that call raises, and otherwise the
      string `pystr` produced, which depends on the input only through its
      length. */
  lemma UnknownBranch(data: string, g: Generator)
    ensures g.randomString(|data|).Raised? ==> FabricateWith(data, Unknown, g) == data
    ensures g.randomString(|data|).Returned? ==> FabricateWith(data, Unknown, g) == g.randomString(|data|).value
    ensures g.randomString(|data|).Returned? ==>
      forall other :: |other| == |data| ==> FabricateWith(other, Unknown, g) == FabricateWith(data, Unknown, g)
  {
  }

  /** So the value keeps its length whether or not generation succeeds. */
  lemma UnknownKeepsLength(data: string, g: Generator)
    requires HonoursLength(g)
    ensures |FabricateWith(data, Unknown, g)| == |data|
  {
  }

  /** Every answer is either the original value or what the generator call
      of its own tag produced: nothing else is ever returned. */
  lemma FallbackOrGenerated(data: string, tag: Tag, g: Generator)
    ensures var r := FabricateWith(data, tag, g);
      tag == Date ==> r == data || (g.dateThisDecade.Returned? && r == FormatIso(g.dateThisDecade.value))
    ensures var r := FabricateWith(data, tag, g);
      tag == Currency ==>
        r == data || (g.wholeUnits.Returned? && g.cents.Returned? && r == FormatAmount(g.wholeUnits.value, g.cents.value))
    ensures var r := FabricateWith(data, tag, g);
      tag == Telephone ==> r == data || (g.phoneNumber.Returned? && r == g.phoneNumber.value)
    ensures var r := FabricateWith(data, tag, g);
      tag == Unknown ==> r == data || (g.randomString(|data|).Returned? && r == g.randomString(|data|).value)
  {
  }

  /** A sample generator, not a model of anything in the tool: every call
      raises, and every date and every amount is rejected. */
  function Broken(): Generator {
    Generator(s => false, Raised, s => false, Raised, Raised, Raised, n => Raised)
  }

  /** When nothing can be generated every value comes back unchanged: the
      fallback prevents data loss. */
  lemma BrokenGeneratorKeepsData(data: string, tag: Tag)
    ensures FabricateWith(data, tag, Broken()) == data
  {
  }
}
