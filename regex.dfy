/** The fragment of Python's regular expressions that the type detector uses,
    with its meaning as a language of strings. `re.match(p, s)` succeeds
    exactly when some prefix of `s` belongs to the language of `p` (the
    backtracking matcher tries every alternative of `?`, `*` and `{m,n}`
    before it gives up), which is `PrefixMatch` below. */
module Regex {
  import opened Text

  /** A character class: `\d`, `\s`, one literal character, or a union
      (`[-.\s]`). */
  datatype CharClass = Digit | Space | Literal(c: char) | Union(left: CharClass, right: CharClass)

  predicate InClass(k: CharClass, c: char) {
    match k
    case Digit => IsDigit(c)
    case Space => IsSpace(c)
    case Literal(d) => c == d
    case Union(a, b) => InClass(a, c) || InClass(b, c)
  }

  /** Regular expressions: the empty word, one character of a class,
      concatenation, `?` and `*`. */
  datatype Re = Empty | Class(k: CharClass) | Cat(a: Re, b: Re) | Opt(a: Re) | Star(a: Re)

  function Lit(c: char): Re {
    Class(Literal(c))
  }

  /** `r+` */
  function Plus(r: Re): Re {
    Cat(r, Star(r))
  }

  /** `r{n}` */
  function Rep(r: Re, n: nat): Re {
    if n == 0 then Empty else Cat(r, Rep(r, n - 1))
  }

  /** `r{0,n}`, written as nested options so that no count is fixed. */
  function UpTo(r: Re, n: nat): Re {
    if n == 0 then Empty else Opt(Cat(r, UpTo(r, n - 1)))
  }

  /** `r{lo,hi}` */
  function Between(r: Re, lo: nat, hi: nat): Re
    requires lo <= hi
  {
    Cat(Rep(r, lo), UpTo(r, hi - lo))
  }

  /** The juxtaposition `r1 r2 ... rn` of a pattern's items. */
  function Concat(items: seq<Re>): Re {
    if items == [] then Empty else Cat(items[0], Concat(items[1..]))
  }

  /** The word `w` belongs to the language of `r`. */
  ghost predicate Matches(r: Re, w: string)
    decreases r, |w|
  {
    match r
    case Empty => w == []
    case Class(k) => |w| == 1 && InClass(k, w[0])
    case Cat(a, b) => exists m :: 0 <= m <= |w| && Matches(a, w[..m]) && Matches(b, w[m..])
    case Opt(a) => w == [] || Matches(a, w)
    case Star(a) => w == [] || exists m :: 0 < m <= |w| && Matches(a, w[..m]) && Matches(Star(a), w[m..])
  }

  /** Some prefix of `s[i..]` belongs to the language of `r`. */
  ghost predicate MatchesFrom(r: Re, s: string, i: nat)
    requires i <= |s|
  {
    exists j :: i <= j <= |s| && Matches(r, s[i..j])
  }

  /** `re.match(r, s)` succeeds. */
  ghost predicate PrefixMatch(r: Re, s: string) {
    MatchesFrom(r, s, 0)
  }

  /** `n` characters of class `k` start at position `i` of `s`. */
  predicate RunAt(k: CharClass, s: string, i: nat, n: nat) {
    i + n <= |s| && forall p :: i <= p < i + n ==> InClass(k, s[p])
  }

  /** The patterns that accept the empty word, computed from their shape. */
  predicate Nullable(r: Re) {
    match r
    case Empty => true
    case Class(_) => false
    case Cat(a, b) => Nullable(a) && Nullable(b)
    case Opt(_) => true
    case Star(_) => true
  }

  lemma {:induction false} NullableMatchesEmpty(r: Re)
    ensures Nullable(r) <==> Matches(r, [])
  {
    match r
    case Empty =>
    case Class(_) =>
    case Cat(a, b) =>
      NullableMatchesEmpty(a);
      NullableMatchesEmpty(b);
      var w: string := [];
      assert w[..0] == [] && w[0..] == [];
    case Opt(a) =>
    case Star(a) =>
  }

  /** A pattern that accepts the empty word matches at every position. */
  lemma NullableFrom(r: Re, s: string, i: nat)
    requires i <= |s| && Nullable(r)
    ensures MatchesFrom(r, s, i)
  {
    NullableMatchesEmpty(r);
    assert s[i..i] == [];
  }

  /** Slicing a slice again. */
  lemma SliceOfSlice(s: string, i: nat, j: nat, k: nat)
    requires i <= j <= |s| && k <= j - i
    ensures s[i..j][..k] == s[i..i + k] && s[i..j][k..] == s[i + k..j]
  {
  }

  lemma CatSliceSplit(a: Re, b: Re, s: string, i: nat, j: nat)
    requires i <= j <= |s| && Matches(Cat(a, b), s[i..j])
    ensures exists m :: i <= m <= j && Matches(a, s[i..m]) && Matches(b, s[m..j])
  {
    var w := s[i..j];
    var k :| 0 <= k <= |w| && Matches(a, w[..k]) && Matches(b, w[k..]);
    SliceOfSlice(s, i, j, k);
    assert Matches(a, s[i..i + k]) && Matches(b, s[i + k..j]);
  }

  lemma CatSliceJoin(a: Re, b: Re, s: string, i: nat, m: nat, j: nat)
    requires i <= m <= j <= |s| && Matches(a, s[i..m]) && Matches(b, s[m..j])
    ensures Matches(Cat(a, b), s[i..j])
  {
    var w := s[i..j];
    var k := m - i;
    SliceOfSlice(s, i, j, k);
    assert Matches(a, w[..k]) && Matches(b, w[k..]);
  }

  /** Splitting a match of `a b` on a slice of `s` into a match of `a` and a
      match of `b` on adjacent slices. */
  lemma CatSlice(a: Re, b: Re, s: string, i: nat, j: nat)
    requires i <= j <= |s|
    ensures Matches(Cat(a, b), s[i..j]) <==> exists m :: i <= m <= j && Matches(a, s[i..m]) && Matches(b, s[m..j])
  {
    if Matches(Cat(a, b), s[i..j]) {
      CatSliceSplit(a, b, s, i, j);
    }
    if exists m :: i <= m <= j && Matches(a, s[i..m]) && Matches(b, s[m..j]) {
      var m :| i <= m <= j && Matches(a, s[i..m]) && Matches(b, s[m..j]);
      CatSliceJoin(a, b, s, i, m, j);
    }
  }

  /** `a b` matches a prefix of `s[i..]` exactly when `a` matches `s[i..m]`
      for some `m` and `b` then matches a prefix of `s[m..]`. */
  lemma CatFrom(a: Re, b: Re, s: string, i: nat)
    requires i <= |s|
    ensures MatchesFrom(Cat(a, b), s, i) <==> exists m :: i <= m <= |s| && Matches(a, s[i..m]) && MatchesFrom(b, s, m)
  {
    if MatchesFrom(Cat(a, b), s, i) {
      var j :| i <= j <= |s| && Matches(Cat(a, b), s[i..j]);
      CatSlice(a, b, s, i, j);
      var m :| i <= m <= j && Matches(a, s[i..m]) && Matches(b, s[m..j]);
      assert MatchesFrom(b, s, m);
    }
    if exists m :: i <= m <= |s| && Matches(a, s[i..m]) && MatchesFrom(b, s, m) {
      var m :| i <= m <= |s| && Matches(a, s[i..m]) && MatchesFrom(b, s, m);
      var j :| m <= j <= |s| && Matches(b, s[m..j]);
      CatSlice(a, b, s, i, j);
    }
  }

  /** A leading character class consumes exactly one character. */
  lemma ClassThen(k: CharClass, r: Re, s: string, i: nat)
    requires i <= |s|
    ensures MatchesFrom(Cat(Class(k), r), s, i) <==> i < |s| && InClass(k, s[i]) && MatchesFrom(r, s, i + 1)
  {
    CatFrom(Class(k), r, s, i);
    if i < |s| && InClass(k, s[i]) && MatchesFrom(r, s, i + 1) {
      assert Matches(Class(k), s[i..i + 1]);
    }
  }

  /** An optional item either takes part in the match or is skipped. */
  lemma OptThen(a: Re, r: Re, s: string, i: nat)
    requires i <= |s|
    ensures MatchesFrom(Cat(Opt(a), r), s, i) <==> MatchesFrom(Cat(a, r), s, i) || MatchesFrom(r, s, i)
  {
    CatFrom(Opt(a), r, s, i);
    CatFrom(a, r, s, i);
    if MatchesFrom(r, s, i) {
      assert Matches(Opt(a), s[i..i]);
    }
  }

  /** An optional single character: taken if the class admits it, or
      skipped. */
  lemma OptClassThen(k: CharClass, r: Re, s: string, i: nat)
    requires i <= |s|
    ensures MatchesFrom(Cat(Opt(Class(k)), r), s, i) <==> (i < |s| && InClass(k, s[i]) && MatchesFrom(r, s, i + 1)) || MatchesFrom(r, s, i)
  {
    OptThen(Class(k), r, s, i);
    ClassThen(k, r, s, i);
  }

  /** A match on a prefix of `s` is a match on a prefix of any extension of
      `s`: nothing after the matched part is looked at. */
  lemma ExtendFrom(r: Re, s: string, e: string, i: nat)
    requires i <= |s|
    ensures MatchesFrom(r, s, i) ==> MatchesFrom(r, s + e, i)
  {
    if MatchesFrom(r, s, i) {
      var j :| i <= j <= |s| && Matches(r, s[i..j]);
      assert (s + e)[i..j] == s[i..j];
    }
  }

  /** The empty word as a leading item changes nothing. */
  lemma EmptyThen(r: Re, s: string, i: nat)
    requires i <= |s|
    ensures MatchesFrom(Cat(Empty, r), s, i) <==> MatchesFrom(r, s, i)
  {
    CatFrom(Empty, r, s, i);
    assert Matches(Empty, s[i..i]);
  }

  /** Concatenation is associative. */
  lemma CatAssoc(a: Re, b: Re, r: Re, s: string, i: nat)
    requires i <= |s|
    ensures MatchesFrom(Cat(Cat(a, b), r), s, i) <==> MatchesFrom(Cat(a, Cat(b, r)), s, i)
  {
    CatFrom(Cat(a, b), r, s, i);
    CatFrom(a, Cat(b, r), s, i);
    if MatchesFrom(Cat(Cat(a, b), r), s, i) {
      var m :| i <= m <= |s| && Matches(Cat(a, b), s[i..m]) && MatchesFrom(r, s, m);
      CatSlice(a, b, s, i, m);
      var p :| i <= p <= m && Matches(a, s[i..p]) && Matches(b, s[p..m]);
      CatFrom(b, r, s, p);
    }
    if MatchesFrom(Cat(a, Cat(b, r)), s, i) {
      var p :| i <= p <= |s| && Matches(a, s[i..p]) && MatchesFrom(Cat(b, r), s, p);
      CatFrom(b, r, s, p);
      var m :| p <= m <= |s| && Matches(b, s[p..m]) && MatchesFrom(r, s, m);
      CatSlice(a, b, s, i, m);
    }
  }

  /** `c{n}` followed by `r` consumes exactly `n` characters of class `c`. */
  lemma {:induction false} RepThen(k: CharClass, n: nat, r: Re, s: string, i: nat)
    requires i <= |s|
    ensures MatchesFrom(Cat(Rep(Class(k), n), r), s, i) <==> RunAt(k, s, i, n) && MatchesFrom(r, s, i + n)
  {
    if n == 0 {
      EmptyThen(r, s, i);
    } else {
      CatAssoc(Class(k), Rep(Class(k), n - 1), r, s, i);
      ClassThen(k, Cat(Rep(Class(k), n - 1), r), s, i);
      if i < |s| {
        RepThen(k, n - 1, r, s, i + 1);
      }
    }
  }

  /** `c{0,n}` followed by `r` consumes between none and `n` characters of
      class `c`. */
  lemma {:induction false} UpToThen(k: CharClass, n: nat, r: Re, s: string, i: nat)
    requires i <= |s|
    ensures MatchesFrom(Cat(UpTo(Class(k), n), r), s, i) <==> exists m :: 0 <= m <= n && RunAt(k, s, i, m) && MatchesFrom(r, s, i + m)
  {
    if n == 0 {
      EmptyThen(r, s, i);
      assert RunAt(k, s, i, 0) && i + 0 == i;
      if exists m :: 0 <= m <= n && RunAt(k, s, i, m) && MatchesFrom(r, s, i + m) {
        var m :| 0 <= m <= n && RunAt(k, s, i, m) && MatchesFrom(r, s, i + m);
        assert m == 0;
      }
    } else {
      OptThen(Cat(Class(k), UpTo(Class(k), n - 1)), r, s, i);
      CatAssoc(Class(k), UpTo(Class(k), n - 1), r, s, i);
      ClassThen(k, Cat(UpTo(Class(k), n - 1), r), s, i);
      assert RunAt(k, s, i, 0);
      if i < |s| {
        UpToThen(k, n - 1, r, s, i + 1);
        if InClass(k, s[i]) && MatchesFrom(Cat(UpTo(Class(k), n - 1), r), s, i + 1) {
          var m :| 0 <= m <= n - 1 && RunAt(k, s, i + 1, m) && MatchesFrom(r, s, i + 1 + m);
          assert RunAt(k, s, i, m + 1);
        }
        if exists m :: 0 <= m <= n && RunAt(k, s, i, m) && MatchesFrom(r, s, i + m) {
          var m :| 0 <= m <= n && RunAt(k, s, i, m) && MatchesFrom(r, s, i + m);
          if m > 0 {
            assert RunAt(k, s, i + 1, m - 1);
          }
        }
      }
    }
  }

  /** Concatenating a list of items, seen from item `k` on. */
  lemma ConcatStep(items: seq<Re>, k: nat)
    requires k < |items|
    ensures Concat(items[k..]) == Cat(items[k], Concat(items[k + 1..]))
  {
    assert items[k..][1..] == items[k + 1..];
  }

  /** The pattern made of no items matches at every position. */
  lemma EmptyFrom(s: string, i: nat)
    requires i <= |s|
    ensures MatchesFrom(Empty, s, i)
  {
    assert Matches(Empty, s[i..i]);
  }
}
