/** Character classes and the two string operations of Python's `str` that
    the tool relies on: `strip()` with no argument and `replace(old, new)`.
    Only the ASCII range is modelled: a digit is '0'..'9' and whitespace is
    the ASCII part of `str.isspace` (code points 9-13 and 28-32), which is
    also what the regular-expression class `\s` accepts there. */
module Text {

  /** `\d` restricted to ASCII. */
  predicate IsDigit(c: char) {
    '0' <= c <= '9'
  }

  /** ASCII whitespace as `str.isspace` and `\s` see it: tab, line feed,
      vertical tab, form feed, carriage return, the four separators 0x1C-0x1F
      and the space. */
  predicate IsSpace(c: char) {
    (9 <= c as int <= 13) || (28 <= c as int <= 32)
  }

  predicate AllSpace(s: string) {
    forall k :: 0 <= k < |s| ==> IsSpace(s[k])
  }

  /** Drops the leading whitespace. */
  function TrimStart(s: string): string {
    if s != [] && IsSpace(s[0]) then TrimStart(s[1..]) else s
  }

  /** Drops the trailing whitespace. */
  function TrimEnd(s: string): string {
    if s != [] && IsSpace(s[|s| - 1]) then TrimEnd(s[..|s| - 1]) else s
  }

  /** `s.strip()`. */
  function Strip(s: string): string {
    TrimEnd(TrimStart(s))
  }

  /** `TrimStart` keeps a suffix, drops only whitespace and leaves no
      leading whitespace. */
  lemma {:induction false} TrimStartSpec(s: string)
    ensures |TrimStart(s)| <= |s| && TrimStart(s) == s[|s| - |TrimStart(s)|..]
    ensures AllSpace(s[..|s| - |TrimStart(s)|])
    ensures TrimStart(s) == [] || !IsSpace(TrimStart(s)[0])
  {
    if s != [] && IsSpace(s[0]) {
      TrimStartSpec(s[1..]);
      var n := |s| - |TrimStart(s)|;
      assert s[..n] == [s[0]] + s[1..][..n - 1];
    }
  }

  /** `TrimEnd` keeps a prefix, drops only whitespace and leaves no
      trailing whitespace. */
  lemma {:induction false} TrimEndSpec(s: string)
    ensures |TrimEnd(s)| <= |s| && TrimEnd(s) == s[..|TrimEnd(s)|]
    ensures AllSpace(s[|TrimEnd(s)|..])
    ensures TrimEnd(s) == [] || !IsSpace(TrimEnd(s)[|TrimEnd(s)| - 1])
  {
    if s != [] && IsSpace(s[|s| - 1]) {
      var p := s[..|s| - 1];
      TrimEndSpec(p);
      var n := |TrimEnd(s)|;
      assert s[n..] == p[n..] + [s[|s| - 1]];
    }
  }

  /** `strip()` keeps a slice of the input, everything it removes at either
      end is whitespace, and what it keeps neither begins nor ends with
      whitespace. */
  lemma StripSpec(s: string)
    ensures exists i :: (0 <= i <= |s| - |Strip(s)| && Strip(s) == s[i..i + |Strip(s)|] &&
      AllSpace(s[..i]) && AllSpace(s[i + |Strip(s)|..]))
    ensures Strip(s) == [] || (!IsSpace(Strip(s)[0]) && !IsSpace(Strip(s)[|Strip(s)| - 1]))
  {
    var t := TrimStart(s);
    TrimStartSpec(s);
    TrimEndSpec(t);
    var r := TrimEnd(t);
    var i := |s| - |t|;
    assert r == s[i..i + |r|];
    assert s[i + |r|..] == t[|r|..];
  }

  /** `strip()` yields the empty string exactly when the input is all
      whitespace. */
  lemma StripBlank(s: string)
    ensures Strip(s) == [] <==> AllSpace(s)
  {
    var t := TrimStart(s);
    TrimStartSpec(s);
    TrimEndSpec(t);
    if Strip(s) == [] {
      assert t[0..] == t;
      assert t == [];
      assert s[..|s|] == s;
    } else {
      assert t[0] == s[|s| - |t|];
    }
  }

  /** A string that neither begins nor ends with whitespace is its own
      `strip()`; in particular `strip()` is idempotent. */
  lemma StripUnchanged(s: string)
    requires s == [] || (!IsSpace(s[0]) && !IsSpace(s[|s| - 1]))
    ensures Strip(s) == s
  {
    assert TrimStart(s) == s;
    assert TrimEnd(s) == s;
  }

  lemma StripIdempotent(s: string)
    ensures Strip(Strip(s)) == Strip(s)
  {
    StripSpec(s);
    StripUnchanged(Strip(s));
  }

  lemma {:induction false} TrimStartExtend(s: string, e: string)
    requires TrimStart(s) != []
    ensures TrimStart(s + e) == TrimStart(s) + e
  {
    if IsSpace(s[0]) {
      assert (s + e)[1..] == s[1..] + e;
      TrimStartExtend(s[1..], e);
    }
  }

  lemma {:induction false} TrimEndExtend(t: string, e: string)
    requires TrimEnd(t) != []
    ensures |TrimEnd(t)| <= |TrimEnd(t + e)| && TrimEnd(t + e)[..|TrimEnd(t)|] == TrimEnd(t)
    decreases |e|
  {
    if e == [] {
      assert t + e == t;
    } else if IsSpace(e[|e| - 1]) {
      var e' := e[..|e| - 1];
      assert (t + e)[..|t + e| - 1] == t + e';
      TrimEndExtend(t, e');
    } else {
      TrimEndSpec(t);
      assert (t + e)[..|TrimEnd(t)|] == t[..|TrimEnd(t)|];
    }
  }

  /** Appending to a string that is not blank keeps its stripped form as a
      prefix of the new stripped form. */
  lemma StripExtend(s: string, e: string)
    requires Strip(s) != []
    ensures |Strip(s)| <= |Strip(s + e)| && Strip(s + e)[..|Strip(s)|] == Strip(s)
  {
    TrimStartExtend(s, e);
    TrimEndExtend(TrimStart(s), e);
  }

  /** `pat` occurs in `s` starting at position `k`. */
  predicate OccursAt(s: string, pat: string, k: nat) {
    k + |pat| <= |s| && s[k..k + |pat|] == pat
  }

  /** `s.replace(pat, rep)`: scanning left to right, every occurrence of
      `pat` that does not overlap an earlier replaced one is replaced by
      `rep`. An empty `pat` puts `rep` before every character and at the
      end, as Python does. */
  function ReplaceAll(s: string, pat: string, rep: string): string
    decreases |s|
  {
    if pat == [] then
      (if s == [] then rep else rep + [s[0]] + ReplaceAll(s[1..], pat, rep))
    else if |s| < |pat| then s
    else if s[..|pat|] == pat then rep + ReplaceAll(s[|pat|..], pat, rep)
    else [s[0]] + ReplaceAll(s[1..], pat, rep)
  }

  /** A non-empty pattern that does not occur leaves the string unchanged. */
  lemma {:induction false} ReplaceAbsent(s: string, pat: string, rep: string)
    requires pat != []
    requires forall k: nat :: !OccursAt(s, pat, k)
    ensures ReplaceAll(s, pat, rep) == s
  {
    if |s| >= |pat| {
      assert !OccursAt(s, pat, 0);
      forall k: nat ensures !OccursAt(s[1..], pat, k) {
        assert !OccursAt(s, pat, k + 1);
        if k + |pat| <= |s[1..]| {
          assert s[1..][k..k + |pat|] == s[k + 1..k + 1 + |pat|];
        }
      }
      ReplaceAbsent(s[1..], pat, rep);
    }
  }

  /** `s` with every `c` dropped and the other characters kept, in order:
      none is a `c`, and every other character occurs as often as in `s`. */
  function Without(s: string, c: char): (r: string)
    ensures forall k :: 0 <= k < |r| ==> r[k] != c
    ensures forall d :: d != c ==> multiset(r)[d] == multiset(s)[d]
  {
    if s == [] then []
    else
      assert s == [s[0]] + s[1..];
      (if s[0] == c then [] else [s[0]]) + Without(s[1..], c)
  }

  /** Replacing a one-character pattern by nothing is `Without`: every
      occurrence of the character goes, every other character stays, in
      order. */
  lemma {:induction false} RemoveChar(s: string, c: char)
    ensures ReplaceAll(s, [c], []) == Without(s, c)
  {
    if s != [] {
      RemoveChar(s[1..], c);
      assert s[..1] == [s[0]];
    }
  }

  /** A replacement at least as long as the pattern never shortens the
      string. */
  lemma {:induction false} ReplaceNotShorter(s: string, pat: string, rep: string)
    requires pat != [] && |rep| >= |pat|
    ensures |ReplaceAll(s, pat, rep)| >= |s|
    decreases |s|
  {
    if |s| >= |pat| {
      if s[..|pat|] == pat {
        ReplaceNotShorter(s[|pat|..], pat, rep);
      } else {
        ReplaceNotShorter(s[1..], pat, rep);
      }
    }
  }

  /** A longer replacement lengthens a string in which the pattern occurs. */
  lemma {:induction false} ReplaceGrows(s: string, pat: string, rep: string, k: nat)
    requires pat != [] && |rep| > |pat|
    requires OccursAt(s, pat, k)
    ensures |ReplaceAll(s, pat, rep)| > |s|
    decreases |s|
  {
    if s[..|pat|] == pat {
      ReplaceNotShorter(s[|pat|..], pat, rep);
    } else {
      assert k != 0;
      assert s[1..][k - 1..k - 1 + |pat|] == s[k..k + |pat|];
      ReplaceGrows(s[1..], pat, rep, k - 1);
    }
  }
}
