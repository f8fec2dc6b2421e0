/** The type detector `detect_data_type`: strip the value, give up on the
    empty string, then try four patterns with `re.match` in a fixed order and
    answer with the tag of the first one that matches a prefix.

    `Detect` uses hand-built prefix recognisers; `ReferenceDetect` states the
    same decision with the four regular expressions of the source and their
    meaning as languages. `DetectAgreesWithPatterns` proves the two equal on
    every input. */
module Detector {
  import opened Text
  import opened Regex

  /** The four answers of the detector ('date', 'currency', 'telephone',
      'unknown'); that the result is one of them holds by construction. */
  datatype Tag = Date | Currency | Telephone | Unknown

  // ---------------------------------------------------------------------
  // The patterns of the source, as regular expressions
  // ---------------------------------------------------------------------

  function DigitRe(): Re {
    Class(Digit)
  }

  /** `[-.\s]` */
  function Separator(): CharClass {
    Union(Literal('-'), Union(Literal('.'), Space))
  }

  /** `\d{4}-\d{2}-\d{2}` */
  function IsoDateItems(): seq<Re> {
    [Rep(DigitRe(), 4), Lit('-'), Rep(DigitRe(), 2), Lit('-'), Rep(DigitRe(), 2)]
  }

  /** `\d{2}/\d{2}/\d{4}` */
  function UsDateItems(): seq<Re> {
    [Rep(DigitRe(), 2), Lit('/'), Rep(DigitRe(), 2), Lit('/'), Rep(DigitRe(), 4)]
  }

  /** `\$\d+(\,\d{3})*(\.\d{2})?` */
  function CurrencyItems(): seq<Re> {
    [Lit('$'), Plus(DigitRe()), Star(Concat([Lit(','), Rep(DigitRe(), 3)])), Opt(Concat([Lit('.'), Rep(DigitRe(), 2)]))]
  }

  /** `(\+\d{1,3})?\s?\(?\d{3}\)?[-.\s]?\d{3}[-.\s]?\d{4}` */
  function PhoneItems(): seq<Re> {
    [ Opt(Concat([Lit('+'), Between(DigitRe(), 1, 3)])), Opt(Class(Space)), Opt(Lit('(')),
      Rep(DigitRe(), 3), Opt(Lit(')')), Opt(Class(Separator())),
      Rep(DigitRe(), 3), Opt(Class(Separator())), Rep(DigitRe(), 4) ]
  }

  /** The phone pattern from item `k` on. */
  function PhoneTail(k: nat): Re
    requires k <= |PhoneItems()|
  {
    Concat(PhoneItems()[k..])
  }

  // ---------------------------------------------------------------------
  // Hand-built prefix recognisers
  // ---------------------------------------------------------------------

  /** `n` ASCII digits start at position `i`. */
  predicate DigitsAt(s: string, i: nat, n: nat) {
    i + n <= |s| && forall p :: i <= p < i + n ==> IsDigit(s[p])
  }

  predicate CharAt(s: string, i: nat, c: char) {
    i < |s| && s[i] == c
  }

  predicate SpaceAt(s: string, i: nat) {
    i < |s| && IsSpace(s[i])
  }

  /** One of `-`, `.` or whitespace at position `i`. */
  predicate SeparatorAt(s: string, i: nat) {
    i < |s| && (s[i] == '-' || s[i] == '.' || IsSpace(s[i]))
  }

  /** `s` begins `dddd-dd-dd`. */
  predicate IsoDatePrefix(s: string) {
    DigitsAt(s, 0, 4) && CharAt(s, 4, '-') && DigitsAt(s, 5, 2) && CharAt(s, 7, '-') && DigitsAt(s, 8, 2)
  }

  /** `s` begins `dd/dd/dddd`. */
  predicate UsDatePrefix(s: string) {
    DigitsAt(s, 0, 2) && CharAt(s, 2, '/') && DigitsAt(s, 3, 2) && CharAt(s, 5, '/') && DigitsAt(s, 6, 4)
  }

  /** `s` begins with `$` and a digit: the thousands and cents groups of the
      currency pattern are optional, so they never decide a prefix match. */
  predicate CurrencyPrefix(s: string) {
    CharAt(s, 0, '$') && DigitsAt(s, 1, 1)
  }

  /** The phone pattern from item `k` on matches a prefix of `s[i..]`. The
      items are numbered as in `PhoneItems`: 0 the country code `(\+\d{1,3})?`,
      1 `\s?`, 2 `\(?`, 3 `\d{3}`, 4 `\)?`, 5 `[-.\s]?`, 6 `\d{3}`, 7 `[-.\s]?`,
      8 `\d{4}`; past item 8 the whole pattern has matched. */
  predicate PhoneFrom(s: string, i: nat, k: nat)
    decreases 9 - k
  {
    if k >= 9 then true
    else if k == 0 then
      (CharAt(s, i, '+') &&
        ((DigitsAt(s, i + 1, 1) && PhoneFrom(s, i + 2, 1)) ||
         (DigitsAt(s, i + 1, 2) && PhoneFrom(s, i + 3, 1)) ||
         (DigitsAt(s, i + 1, 3) && PhoneFrom(s, i + 4, 1))))
      || PhoneFrom(s, i, 1)
    else if k == 1 then (SpaceAt(s, i) && PhoneFrom(s, i + 1, 2)) || PhoneFrom(s, i, 2)
    else if k == 2 then (CharAt(s, i, '(') && PhoneFrom(s, i + 1, 3)) || PhoneFrom(s, i, 3)
    else if k == 4 then (CharAt(s, i, ')') && PhoneFrom(s, i + 1, 5)) || PhoneFrom(s, i, 5)
    else if k == 5 || k == 7 then (SeparatorAt(s, i) && PhoneFrom(s, i + 1, k + 1)) || PhoneFrom(s, i, k + 1)
    else if k == 8 then DigitsAt(s, i, 4) && PhoneFrom(s, i + 4, 9)
    else DigitsAt(s, i, 3) && PhoneFrom(s, i + 3, k + 1)   // items 3 and 6
  }

  /** `s` begins with the phone shape. */
  predicate PhonePrefix(s: string) {
    PhoneFrom(s, 0, 0)
  }

  // ---------------------------------------------------------------------
  // The detector and its reference
  // ---------------------------------------------------------------------

  /** The ordered tests of `detect_data_type` on the stripped value `d`. */
  function Classify(d: string): Tag {
    if d == [] then Unknown
    else if IsoDatePrefix(d) then Date
    else if UsDatePrefix(d) then Date
    else if CurrencyPrefix(d) then Currency
    else if PhonePrefix(d) then Telephone
    else Unknown
  }

  /** `detect_data_type(data)` for a string `data`. */
  function Detect(data: string): Tag {
    Classify(Strip(data))
  }

  ghost function IsoDateRe(): Re { Concat(IsoDateItems()) }
  ghost function UsDateRe(): Re { Concat(UsDateItems()) }
  ghost function CurrencyRe(): Re { Concat(CurrencyItems()) }
  ghost function PhoneRe(): Re { Concat(PhoneItems()) }

  /** The decision of the source written with `re.match` on the four
      patterns: first match wins, nothing matching is 'unknown'. */
  ghost function ReferenceDetect(data: string): Tag {
    var d := Strip(data);
    if d == [] then Unknown
    else if PrefixMatch(IsoDateRe(), d) then Date
    else if PrefixMatch(UsDateRe(), d) then Date
    else if PrefixMatch(CurrencyRe(), d) then Currency
    else if PrefixMatch(PhoneRe(), d) then Telephone
    else Unknown
  }

  // ---------------------------------------------------------------------
  // Each recogniser accepts exactly what its pattern matches
  // ---------------------------------------------------------------------

  lemma IsoDateCorrect(s: string)
    ensures IsoDatePrefix(s) <==> PrefixMatch(IsoDateRe(), s)
  {
    var xs := IsoDateItems();
    assert xs[0..] == xs;
    ConcatStep(xs, 0);
    RepThen(Digit, 4, Concat(xs[1..]), s, 0);
    if DigitsAt(s, 0, 4) {
      ConcatStep(xs, 1);
      ClassThen(Literal('-'), Concat(xs[2..]), s, 4);
      if CharAt(s, 4, '-') {
        ConcatStep(xs, 2);
        RepThen(Digit, 2, Concat(xs[3..]), s, 5);
        if DigitsAt(s, 5, 2) {
          ConcatStep(xs, 3);
          ClassThen(Literal('-'), Concat(xs[4..]), s, 7);
          if CharAt(s, 7, '-') {
            ConcatStep(xs, 4);
            RepThen(Digit, 2, Concat(xs[5..]), s, 8);
            if DigitsAt(s, 8, 2) {
              assert xs[5..] == [];
              EmptyFrom(s, 10);
            }
          }
        }
      }
    }
  }

  lemma UsDateCorrect(s: string)
    ensures UsDatePrefix(s) <==> PrefixMatch(UsDateRe(), s)
  {
    var xs := UsDateItems();
    assert xs[0..] == xs;
    ConcatStep(xs, 0);
    RepThen(Digit, 2, Concat(xs[1..]), s, 0);
    if DigitsAt(s, 0, 2) {
      ConcatStep(xs, 1);
      ClassThen(Literal('/'), Concat(xs[2..]), s, 2);
      if CharAt(s, 2, '/') {
        ConcatStep(xs, 2);
        RepThen(Digit, 2, Concat(xs[3..]), s, 3);
        if DigitsAt(s, 3, 2) {
          ConcatStep(xs, 3);
          ClassThen(Literal('/'), Concat(xs[4..]), s, 5);
          if CharAt(s, 5, '/') {
            ConcatStep(xs, 4);
            RepThen(Digit, 4, Concat(xs[5..]), s, 6);
            if DigitsAt(s, 6, 4) {
              assert xs[5..] == [];
              EmptyFrom(s, 10);
            }
          }
        }
      }
    }
  }

  /** `re.match(r'\$\d+(\,\d{3})*(\.\d{2})?', s)` succeeds exactly when
      `s` begins with `$` and a digit. */
  lemma CurrencyCorrect(s: string)
    ensures CurrencyPrefix(s) <==> PrefixMatch(CurrencyRe(), s)
  {
    var xs := CurrencyItems();
    assert xs[0..] == xs;
    ConcatStep(xs, 0);
    ClassThen(Literal('$'), Concat(xs[1..]), s, 0);
    if CharAt(s, 0, '$') {
      ConcatStep(xs, 1);
      CatAssoc(DigitRe(), Star(DigitRe()), Concat(xs[2..]), s, 1);
      ClassThen(Digit, Cat(Star(DigitRe()), Concat(xs[2..])), s, 1);
      if DigitsAt(s, 1, 1) {
        ConcatStep(xs, 2);
        ConcatStep(xs, 3);
        assert xs[4..] == [];
        NullableFrom(Cat(Star(DigitRe()), Concat(xs[2..])), s, 2);
      }
    }
  }

  lemma SeparatorClass(c: char)
    ensures InClass(Separator(), c) <==> c == '-' || c == '.' || IsSpace(c)
  {
    assert InClass(Union(Literal('.'), Space), c) <==> c == '.' || IsSpace(c);
  }

  /** `\d{0,2}` followed by `r`. */
  lemma TwoMoreDigitsThen(r: Re, s: string, j: nat)
    requires j <= |s|
    ensures MatchesFrom(Cat(UpTo(DigitRe(), 2), r), s, j) <==>
      MatchesFrom(r, s, j) || (DigitsAt(s, j, 1) && MatchesFrom(r, s, j + 1)) || (DigitsAt(s, j, 2) && MatchesFrom(r, s, j + 2))
  {
    UpToThen(Digit, 2, r, s, j);
    assert RunAt(Digit, s, j, 0);
    if DigitsAt(s, j, 1) {
      assert RunAt(Digit, s, j, 1);
    }
    if DigitsAt(s, j, 2) {
      assert RunAt(Digit, s, j, 2);
    }
  }

  /** The country code `\+\d{1,3}` followed by `r`: a `+`, one digit and up
      to two more. */
  lemma CountryCodeThen(r: Re, s: string, i: nat)
    requires i <= |s|
    ensures MatchesFrom(Cat(Concat([Lit('+'), Between(DigitRe(), 1, 3)]), r), s, i) <==>
      CharAt(s, i, '+') &&
        ((DigitsAt(s, i + 1, 1) && MatchesFrom(r, s, i + 2)) ||
         (DigitsAt(s, i + 1, 2) && MatchesFrom(r, s, i + 3)) ||
         (DigitsAt(s, i + 1, 3) && MatchesFrom(r, s, i + 4)))
  {
    var b := Between(DigitRe(), 1, 3);
    var xs := [Lit('+'), b];
    assert xs[0..] == xs && xs[2..] == [];
    ConcatStep(xs, 0);
    ConcatStep(xs, 1);
    CatAssoc(Lit('+'), Cat(b, Empty), r, s, i);
    ClassThen(Literal('+'), Cat(Cat(b, Empty), r), s, i);
    if CharAt(s, i, '+') {
      CatAssoc(b, Empty, r, s, i + 1);
      CatAssoc(Rep(DigitRe(), 1), UpTo(DigitRe(), 2), Cat(Empty, r), s, i + 1);
      RepThen(Digit, 1, Cat(UpTo(DigitRe(), 2), Cat(Empty, r)), s, i + 1);
      if DigitsAt(s, i + 1, 1) {
        UpToEmptyThen(2, r, s, i + 2);
        TwoMoreDigitsThen(r, s, i + 2);
      }
    }
  }

  /** An `Empty` item after `\d{0,n}` changes nothing. */
  lemma UpToEmptyThen(n: nat, r: Re, s: string, i: nat)
    requires i <= |s|
    ensures MatchesFrom(Cat(UpTo(DigitRe(), n), Cat(Empty, r)), s, i) <==> MatchesFrom(Cat(UpTo(DigitRe(), n), r), s, i)
  {
    CatFrom(UpTo(DigitRe(), n), Cat(Empty, r), s, i);
    CatFrom(UpTo(DigitRe(), n), r, s, i);
    forall m | i <= m <= |s|
      ensures MatchesFrom(Cat(Empty, r), s, m) <==> MatchesFrom(r, s, m)
    {
      EmptyThen(r, s, m);
    }
  }

  /** An optional single-character item of the phone pattern. */
  lemma OptionalStage(s: string, i: nat, k: nat, c: CharClass)
    requires i <= |s| && k < 9 && PhoneItems()[k] == Opt(Class(c))
    requires PhoneFrom(s, i, k) <==> (i < |s| && InClass(c, s[i]) && PhoneFrom(s, i + 1, k + 1)) || PhoneFrom(s, i, k + 1)
    requires PhoneFrom(s, i, k + 1) <==> MatchesFrom(PhoneTail(k + 1), s, i)
    requires i < |s| ==> (PhoneFrom(s, i + 1, k + 1) <==> MatchesFrom(PhoneTail(k + 1), s, i + 1))
    ensures PhoneFrom(s, i, k) <==> MatchesFrom(PhoneTail(k), s, i)
  {
    ConcatStep(PhoneItems(), k);
    OptClassThen(c, PhoneTail(k + 1), s, i);
  }

  /** A digit group of the phone pattern. */
  lemma DigitsStage(s: string, i: nat, k: nat, n: nat)
    requires i <= |s| && k < 9 && PhoneItems()[k] == Rep(DigitRe(), n)
    requires PhoneFrom(s, i, k) <==> DigitsAt(s, i, n) && PhoneFrom(s, i + n, k + 1)
    requires i + n <= |s| ==> (PhoneFrom(s, i + n, k + 1) <==> MatchesFrom(PhoneTail(k + 1), s, i + n))
    ensures PhoneFrom(s, i, k) <==> MatchesFrom(PhoneTail(k), s, i)
  {
    ConcatStep(PhoneItems(), k);
    RepThen(Digit, n, PhoneTail(k + 1), s, i);
  }

  // Each stage of the phone recogniser accepts exactly what the pattern
  // from that item on matches.

  lemma LineNumberStage(s: string, i: nat)
    requires i <= |s|
    ensures PhoneFrom(s, i, 8) <==> MatchesFrom(PhoneTail(8), s, i)
  {
    assert PhoneItems()[9..] == [];
    if i + 4 <= |s| {
      EmptyFrom(s, i + 4);
    }
    DigitsStage(s, i, 8, 4);
  }

  lemma BeforeLineNumberStage(s: string, i: nat)
    requires i <= |s|
    ensures PhoneFrom(s, i, 7) <==> MatchesFrom(PhoneTail(7), s, i)
  {
    LineNumberStage(s, i);
    if i < |s| {
      LineNumberStage(s, i + 1);
      SeparatorClass(s[i]);
    }
    OptionalStage(s, i, 7, Separator());
  }

  lemma ExchangeStage(s: string, i: nat)
    requires i <= |s|
    ensures PhoneFrom(s, i, 6) <==> MatchesFrom(PhoneTail(6), s, i)
  {
    if i + 3 <= |s| {
      BeforeLineNumberStage(s, i + 3);
    }
    DigitsStage(s, i, 6, 3);
  }

  lemma BeforeExchangeStage(s: string, i: nat)
    requires i <= |s|
    ensures PhoneFrom(s, i, 5) <==> MatchesFrom(PhoneTail(5), s, i)
  {
    ExchangeStage(s, i);
    if i < |s| {
      ExchangeStage(s, i + 1);
      SeparatorClass(s[i]);
    }
    OptionalStage(s, i, 5, Separator());
  }

  lemma CloseParenStage(s: string, i: nat)
    requires i <= |s|
    ensures PhoneFrom(s, i, 4) <==> MatchesFrom(PhoneTail(4), s, i)
  {
    BeforeExchangeStage(s, i);
    if i < |s| {
      BeforeExchangeStage(s, i + 1);
    }
    OptionalStage(s, i, 4, Literal(')'));
  }

  lemma AreaCodeStage(s: string, i: nat)
    requires i <= |s|
    ensures PhoneFrom(s, i, 3) <==> MatchesFrom(PhoneTail(3), s, i)
  {
    if i + 3 <= |s| {
      CloseParenStage(s, i + 3);
    }
    DigitsStage(s, i, 3, 3);
  }

  lemma OpenParenStage(s: string, i: nat)
    requires i <= |s|
    ensures PhoneFrom(s, i, 2) <==> MatchesFrom(PhoneTail(2), s, i)
  {
    AreaCodeStage(s, i);
    if i < |s| {
      AreaCodeStage(s, i + 1);
    }
    OptionalStage(s, i, 2, Literal('('));
  }

  lemma LocalNumberStage(s: string, i: nat)
    requires i <= |s|
    ensures PhoneFrom(s, i, 1) <==> MatchesFrom(PhoneTail(1), s, i)
  {
    OpenParenStage(s, i);
    if i < |s| {
      OpenParenStage(s, i + 1);
    }
    OptionalStage(s, i, 1, Space);
  }

  lemma CountryCodeStage(s: string, i: nat)
    requires i <= |s|
    ensures PhoneFrom(s, i, 0) <==> MatchesFrom(PhoneTail(0), s, i)
  {
    ConcatStep(PhoneItems(), 0);
    OptThen(Concat([Lit('+'), Between(DigitRe(), 1, 3)]), PhoneTail(1), s, i);
    CountryCodeThen(PhoneTail(1), s, i);
    LocalNumberStage(s, i);
    if i + 2 <= |s| { LocalNumberStage(s, i + 2); }
    if i + 3 <= |s| { LocalNumberStage(s, i + 3); }
    if i + 4 <= |s| { LocalNumberStage(s, i + 4); }
  }

  lemma PhoneCorrect(s: string)
    ensures PhonePrefix(s) <==> PrefixMatch(PhoneRe(), s)
  {
    assert PhoneItems()[0..] == PhoneItems();
    CountryCodeStage(s, 0);
  }

  /** The hand-built tests and the regular-expression decision agree on every
      stripped value. */
  lemma DetectAgreesWithPatterns(data: string)
    ensures Detect(data) == ReferenceDetect(data)
  {
    var d := Strip(data);
    IsoDateCorrect(d);
    UsDateCorrect(d);
    CurrencyCorrect(d);
    PhoneCorrect(d);
  }

  // ---------------------------------------------------------------------
  // What the detector promises
  // ---------------------------------------------------------------------

  /** Empty or all-whitespace input is 'unknown'. */
  lemma DetectBlank(data: string)
    requires AllSpace(data)
    ensures Detect(data) == Unknown
  {
    StripBlank(data);
  }

  /** How a phone number can begin: `+`, whitespace, `(`, or three digits
      followed by `)`, a separator or three more digits. */
  lemma PhoneStart(s: string)
    requires PhonePrefix(s)
    ensures CharAt(s, 0, '+') || SpaceAt(s, 0) || CharAt(s, 0, '(') ||
      (DigitsAt(s, 0, 3) && (CharAt(s, 3, ')') || SeparatorAt(s, 3) || DigitsAt(s, 3, 3)))
  {
    if !CharAt(s, 0, '+') && !SpaceAt(s, 0) && !CharAt(s, 0, '(') {
      assert PhoneFrom(s, 0, 3);
      assert PhoneFrom(s, 3, 4);
      if !CharAt(s, 3, ')') && !SeparatorAt(s, 3) {
        assert PhoneFrom(s, 3, 6);
      }
    }
  }

  /** A value that begins with the phone shape begins with neither date
      shape nor with `$`: a date has a `-` or `/` too early for the 3-3-4
      digit grouping. */
  lemma PhoneExcludesOthers(s: string)
    requires PhonePrefix(s)
    ensures !IsoDatePrefix(s) && !UsDatePrefix(s) && !CurrencyPrefix(s)
  {
    PhoneStart(s);
  }

  /** The four patterns never match the same string, so the order of the
      tests decides nothing. */
  lemma PatternsExclusive(s: string)
    ensures !(PrefixMatch(IsoDateRe(), s) && PrefixMatch(UsDateRe(), s))
    ensures !(PrefixMatch(IsoDateRe(), s) && PrefixMatch(PhoneRe(), s))
    ensures !(PrefixMatch(UsDateRe(), s) && PrefixMatch(PhoneRe(), s))
    ensures !(PrefixMatch(CurrencyRe(), s) && PrefixMatch(IsoDateRe(), s))
    ensures !(PrefixMatch(CurrencyRe(), s) && PrefixMatch(UsDateRe(), s))
    ensures !(PrefixMatch(CurrencyRe(), s) && PrefixMatch(PhoneRe(), s))
  {
    IsoDateCorrect(s);
    UsDateCorrect(s);
    CurrencyCorrect(s);
    PhoneCorrect(s);
    if PhonePrefix(s) {
      PhoneExcludesOthers(s);
    }
  }

  /** The phone pattern from item `k` on needs this many characters. */
  function MinPhoneLength(k: nat): nat {
    if k <= 3 then 10 else if k <= 6 then 7 else if k <= 8 then 4 else 0
  }

  lemma {:induction false} PhoneStageLength(s: string, i: nat, k: nat)
    requires k <= 9 && i <= |s| && PhoneFrom(s, i, k)
    ensures i + MinPhoneLength(k) <= |s|
    decreases 9 - k
  {
    if k == 0 {
      if PhoneFrom(s, i, 1) {
        PhoneStageLength(s, i, 1);
      } else if DigitsAt(s, i + 1, 1) && PhoneFrom(s, i + 2, 1) {
        PhoneStageLength(s, i + 2, 1);
      } else if DigitsAt(s, i + 1, 2) && PhoneFrom(s, i + 3, 1) {
        PhoneStageLength(s, i + 3, 1);
      } else {
        PhoneStageLength(s, i + 4, 1);
      }
    } else if k == 3 || k == 6 || k == 8 {
      var n := if k == 8 then 4 else 3;
      assert PhoneFrom(s, i + n, k + 1);
      PhoneStageLength(s, i + n, k + 1);
    } else if k < 9 {
      if PhoneFrom(s, i, k + 1) {
        PhoneStageLength(s, i, k + 1);
      } else {
        assert PhoneFrom(s, i + 1, k + 1);
        PhoneStageLength(s, i + 1, k + 1);
      }
    }
  }

  /** A phone number has at least ten characters. */
  lemma PhoneLength(s: string)
    requires PhonePrefix(s)
    ensures |s| >= 10
  {
    PhoneStageLength(s, 0, 0);
  }

  /** 'date' exactly when the stripped value begins with either date shape;
      date is tested first, so no other pattern can take such a value. */
  lemma DetectDate(data: string)
    ensures Detect(data) == Date <==> PrefixMatch(IsoDateRe(), Strip(data)) || PrefixMatch(UsDateRe(), Strip(data))
  {
    IsoDateCorrect(Strip(data));
    UsDateCorrect(Strip(data));
  }

  /** 'currency' exactly when the stripped value begins with `$` and a digit;
      the thousands groups and the cents of the pattern are never needed. */
  lemma DetectCurrency(data: string)
    ensures Detect(data) == Currency <==> PrefixMatch(CurrencyRe(), Strip(data))
    ensures Detect(data) == Currency <==> |Strip(data)| >= 2 && Strip(data)[0] == '$' && IsDigit(Strip(data)[1])
  {
    CurrencyCorrect(Strip(data));
  }

  /** 'telephone' exactly when the stripped value begins with the phone
      shape: no earlier test can claim such a value. */
  lemma DetectTelephone(data: string)
    ensures Detect(data) == Telephone <==> PrefixMatch(PhoneRe(), Strip(data))
  {
    var d := Strip(data);
    PhoneCorrect(d);
    if PhonePrefix(d) {
      PhoneLength(d);
      PhoneExcludesOthers(d);
    }
  }

  /** 'unknown' exactly when none of the four patterns matches the stripped
      value. */
  lemma DetectUnknown(data: string)
    ensures Detect(data) == Unknown <==>
      !PrefixMatch(IsoDateRe(), Strip(data)) && !PrefixMatch(UsDateRe(), Strip(data)) &&
      !PrefixMatch(CurrencyRe(), Strip(data)) && !PrefixMatch(PhoneRe(), Strip(data))
  {
    var d := Strip(data);
    IsoDateCorrect(d);
    UsDateCorrect(d);
    CurrencyCorrect(d);
    PhoneCorrect(d);
    if PhonePrefix(d) {
      PhoneLength(d);
    }
  }

  /** The date and currency tests look at a fixed number of leading
      characters only. */
  lemma FixedTestsExtend(d: string, e: string)
    ensures IsoDatePrefix(d) ==> IsoDatePrefix(d + e)
    ensures UsDatePrefix(d) ==> UsDatePrefix(d + e)
    ensures CurrencyPrefix(d) ==> CurrencyPrefix(d + e)
    ensures |d| >= 10 ==> (IsoDatePrefix(d + e) <==> IsoDatePrefix(d)) && (UsDatePrefix(d + e) <==> UsDatePrefix(d))
    ensures |d| >= 2 ==> (CurrencyPrefix(d + e) <==> CurrencyPrefix(d))
  {
    assert forall k :: 0 <= k < |d| ==> (d + e)[k] == d[k];
  }

  /** Once the tests classify a stripped value, appending text keeps the
      classification. */
  lemma ClassifyExtend(d: string, e: string)
    requires Classify(d) != Unknown
    ensures Classify(d + e) == Classify(d)
  {
    FixedTestsExtend(d, e);
    if !IsoDatePrefix(d) && !UsDatePrefix(d) && !CurrencyPrefix(d) {
      PhoneLength(d);
      PhoneCorrect(d);
      PhoneCorrect(d + e);
      ExtendFrom(PhoneRe(), d, e, 0);
    }
  }

  /** The tests are prefix tests: once a value is classified as anything but
      'unknown', appending any text keeps the classification. */
  lemma DetectPrefixStable(data: string, rest: string)
    requires Detect(data) != Unknown
    ensures Detect(data + rest) == Detect(data)
  {
    var d := Strip(data);
    StripExtend(data, rest);
    var d2 := Strip(data + rest);
    assert d2 == d + d2[|d|..];
    ClassifyExtend(d, d2[|d|..]);
  }

  // Worked values in the tool's domain.

  lemma IsoDateExample()
    ensures Detect("2023-01-15") == Date
  {
    var d := "2023-01-15";
    StripUnchanged(d);
    assert DigitsAt(d, 0, 4) && DigitsAt(d, 5, 2) && DigitsAt(d, 8, 2);
    assert IsoDatePrefix(d);
  }

  lemma UsDateExample()
    ensures Detect("01/15/2023") == Date
  {
    var d := "01/15/2023";
    StripUnchanged(d);
    assert !IsDigit(d[2]);
    assert DigitsAt(d, 0, 2) && DigitsAt(d, 3, 2) && DigitsAt(d, 6, 4);
    assert UsDatePrefix(d);
  }

  lemma CurrencyExample()
    ensures Detect("$1,234.56") == Currency
  {
    var d := "$1,234.56";
    StripUnchanged(d);
    assert !IsoDatePrefix(d) && !UsDatePrefix(d);
    assert CurrencyPrefix(d);
  }

  lemma TelephoneExample()
    ensures Detect("(555) 123-4567") == Telephone
  {
    var d := "(555) 123-4567";
    StripUnchanged(d);
    assert PhoneFrom(d, 14, 9);
    assert PhoneFrom(d, 10, 8);
    assert PhoneFrom(d, 9, 7);
    assert PhoneFrom(d, 6, 6);
    assert PhoneFrom(d, 5, 5);
    assert PhoneFrom(d, 4, 4);
    assert PhoneFrom(d, 1, 3);
    assert PhoneFrom(d, 0, 1);
  }

  lemma TenDigitPhoneExample()
    ensures Detect("5551234567") == Telephone
  {
    var d := "5551234567";
    StripUnchanged(d);
    assert d[4] != '-';
    assert d[2] != '/' && d[0] != '$';
    assert PhoneFrom(d, 10, 9);
    assert PhoneFrom(d, 6, 8);
    assert PhoneFrom(d, 6, 7);
    assert PhoneFrom(d, 3, 6);
    assert PhoneFrom(d, 3, 5);
    assert PhoneFrom(d, 3, 4);
    assert PhoneFrom(d, 0, 3);
    assert PhoneFrom(d, 0, 1);
  }

  lemma CountryCodePhoneExample()
    ensures Detect("+1 (555) 123-4567") == Telephone
  {
    var d := "+1 (555) 123-4567";
    StripUnchanged(d);
    assert !IsDigit(d[0]) && d[0] != '$';
    assert PhoneFrom(d, 17, 9);
    assert PhoneFrom(d, 13, 8);
    assert PhoneFrom(d, 12, 7);
    assert PhoneFrom(d, 9, 6);
    assert PhoneFrom(d, 8, 5);
    assert PhoneFrom(d, 7, 4);
    assert PhoneFrom(d, 4, 3);
    assert PhoneFrom(d, 3, 2);
    assert PhoneFrom(d, 2, 1);
    assert DigitsAt(d, 1, 1);
  }

  lemma UnknownExample()
    ensures Detect("hello") == Unknown
  {
    var d := "hello";
    StripUnchanged(d);
    assert !IsDigit(d[0]) && !IsSpace(d[0]);
    assert !PhoneFrom(d, 0, 3);
    assert !PhoneFrom(d, 0, 2);
    assert !PhoneFrom(d, 0, 1);
    assert !PhonePrefix(d);
  }
}
