/**
 * ASCII models of the Python 3 `str` operations the resume mapper relies on:
 * `strip()`, `lower()`, `upper()`, `title()`, substring search (`in`, `find`,
 * `split(sep, 1)`, `startswith`, `endswith`), `isdigit()`, `str(int)` and
 * `int(str)`. Characters outside ASCII are never whitespace, digits or letters
 * here, so the case mappings leave them unchanged.
 */
module PyStr {
  import opened Results

  /** `str.isspace()` on ASCII: tab, line feed, vertical tab, form feed, carriage
      return, the separators 0x1C to 0x1F, and space. */
  predicate IsSpace(c: char) { 9 <= c as int <= 13 || 28 <= c as int <= 32 }

  predicate IsDigit(c: char) { '0' <= c <= '9' }

  predicate IsUpper(c: char) { 'A' <= c <= 'Z' }

  predicate IsLower(c: char) { 'a' <= c <= 'z' }

  /** A cased character in the sense of `str.title()`. */
  predicate IsAlpha(c: char) { IsUpper(c) || IsLower(c) }

  /** The characters that `\w` matches, which decide where `\b` stands. */
  predicate IsWordChar(c: char) { IsAlpha(c) || IsDigit(c) || c == '_' }

  function LowerChar(c: char): char
  {
    if IsUpper(c) then (c as int + 32) as char else c
  }

  function UpperChar(c: char): char
  {
    if IsLower(c) then (c as int - 32) as char else c
  }

  /** `s.lower()` */
  function Lower(s: string): string
  {
    seq(|s|, i requires 0 <= i < |s| => LowerChar(s[i]))
  }

  /** `s.upper()` */
  function Upper(s: string): string
  {
    seq(|s|, i requires 0 <= i < |s| => UpperChar(s[i]))
  }

  lemma LowerIdempotent(s: string)
    ensures Lower(Lower(s)) == Lower(s)
  {
    assert forall i :: 0 <= i < |s| ==> Lower(Lower(s))[i] == Lower(s)[i];
  }

  /** `title()` with the state it keeps: whether the previous character was cased. */
  function TitleFrom(s: string, prevCased: bool): (r: string)
    ensures |r| == |s|
  {
    if s == [] then []
    else
      var c := s[0];
      [if !IsAlpha(c) then c else if prevCased then LowerChar(c) else UpperChar(c)]
      + TitleFrom(s[1..], IsAlpha(c))
  }

  /** `s.title()`: a letter is upper-cased when the character before it is not a letter,
      lower-cased otherwise; everything else is kept. */
  function Title(s: string): string
  {
    TitleFrom(s, false)
  }

  /** `title()` changes only the case of letters. */
  lemma {:induction false} LowerTitleFrom(s: string, prevCased: bool)
    ensures Lower(TitleFrom(s, prevCased)) == Lower(s)
  {
    if s != [] {
      LowerTitleFrom(s[1..], IsAlpha(s[0]));
      var t := TitleFrom(s, prevCased);
      assert t == [t[0]] + TitleFrom(s[1..], IsAlpha(s[0]));
      assert Lower(t)[0] == Lower(s)[0];
      forall i | 1 <= i < |s|
        ensures Lower(t)[i] == Lower(s)[i]
      {
        assert Lower(t)[i] == Lower(TitleFrom(s[1..], IsAlpha(s[0])))[i - 1];
      }
    }
  }

  /** `title()` looks at letters only up to their case, so case-folding first changes nothing. */
  lemma {:induction false} TitleFromLower(s: string, prevCased: bool)
    ensures TitleFrom(Lower(s), prevCased) == TitleFrom(s, prevCased)
  {
    if s != [] {
      assert Lower(s)[1..] == Lower(s[1..]);
      TitleFromLower(s[1..], IsAlpha(s[0]));
    }
  }

  /** `s.title().title() == s.title()` */
  lemma TitleIdempotent(s: string)
    ensures Title(Title(s)) == Title(s)
  {
    LowerTitleFrom(s, false);
    TitleFromLower(Title(s), false);
    TitleFromLower(s, false);
  }

  /** Number of leading whitespace characters. */
  function LeadingSpaces(s: string): (k: nat)
    ensures k <= |s|
    ensures forall i :: 0 <= i < k ==> IsSpace(s[i])
    ensures k == |s| || !IsSpace(s[k])
  {
    if s != [] && IsSpace(s[0]) then 1 + LeadingSpaces(s[1..]) else 0
  }

  /** Number of trailing whitespace characters. */
  function TrailingSpaces(s: string): (k: nat)
    ensures k <= |s|
    ensures forall i :: |s| - k <= i < |s| ==> IsSpace(s[i])
    ensures k == |s| || !IsSpace(s[|s| - 1 - k])
  {
    if s != [] && IsSpace(s[|s| - 1]) then 1 + TrailingSpaces(s[..|s| - 1]) else 0
  }

  /** `s.strip()`: what is left once the whitespace at both ends is cut off. */
  function Strip(s: string): (r: string)
    ensures r == [] || (!IsSpace(r[0]) && !IsSpace(r[|r| - 1]))
    ensures r == [] <==> forall i :: 0 <= i < |s| ==> IsSpace(s[i])
  {
    var a := s[LeadingSpaces(s)..];
    a[..|a| - TrailingSpaces(a)]
  }

  /** `strip()` keeps an infix of the text and cuts off only whitespace. */
  lemma StripInfix(s: string)
    ensures exists lo :: StrippedAt(s, Strip(s), lo)
  {
    var lo := LeadingSpaces(s);
    var a := s[lo..];
    var r := Strip(s);
    assert r == s[lo..lo + |r|];
    assert forall i :: lo + |r| <= i < |s| ==> s[i] == a[i - lo];
    assert StrippedAt(s, r, lo);
  }

  /** `r` is the infix of `s` starting at `lo`, and only whitespace lies around it. */
  predicate StrippedAt(s: string, r: string, lo: int)
  {
    && 0 <= lo <= |s| - |r|
    && r == s[lo..lo + |r|]
    && (forall i :: 0 <= i < lo ==> IsSpace(s[i]))
    && (forall i :: lo + |r| <= i < |s| ==> IsSpace(s[i]))
  }

  /** `s` and `t` have whitespace at the same positions. */
  predicate SameSpaces(s: string, t: string)
  {
    |s| == |t| && forall i :: 0 <= i < |s| ==> (IsSpace(s[i]) <==> IsSpace(t[i]))
  }

  /** The leading whitespace ends at the first character that is not whitespace. */
  lemma LeadingSpacesAt(s: string, k: nat)
    requires k <= |s| && (forall i :: 0 <= i < k ==> IsSpace(s[i])) && (k == |s| || !IsSpace(s[k]))
    ensures LeadingSpaces(s) == k
  {
  }

  /** The trailing whitespace ends at the last character that is not whitespace. */
  lemma TrailingSpacesAt(s: string, k: nat)
    requires k <= |s| && (forall i :: |s| - k <= i < |s| ==> IsSpace(s[i])) && (k == |s| || !IsSpace(s[|s| - 1 - k]))
    ensures TrailingSpaces(s) == k
  {
  }

  /** Leading and trailing whitespace depend only on where the whitespace is. */
  lemma SpacesAgree(s: string, t: string)
    requires SameSpaces(s, t)
    ensures LeadingSpaces(s) == LeadingSpaces(t)
    ensures TrailingSpaces(s) == TrailingSpaces(t)
  {
    LeadingSpacesAt(t, LeadingSpaces(s));
    TrailingSpacesAt(t, TrailingSpaces(s));
  }

  /** Case mapping keeps whitespace where it is, so it commutes with `strip()`. */
  lemma StripLower(s: string)
    ensures Strip(Lower(s)) == Lower(Strip(s))
  {
    var t := Lower(s);
    var lo := LeadingSpaces(s);
    var a := s[lo..];
    var n := |a| - TrailingSpaces(a);
    assert LeadingSpaces(t) == lo by {
      LowerSameSpaces(s);
      SpacesAgree(s, t);
    }
    assert t[lo..] == Lower(a) by {
      LowerSlice(s, lo, |s|);
    }
    assert TrailingSpaces(Lower(a)) == TrailingSpaces(a) by {
      LowerSameSpaces(a);
      SpacesAgree(a, Lower(a));
    }
    calc {
      Strip(t);
      Lower(a)[..n];
      { LowerSlice(a, 0, n); assert a[0..n] == a[..n]; }
      Lower(a[..n]);
      Lower(Strip(s));
    }
  }

  /** Lower-casing a slice is slicing the lower-cased text. */
  lemma LowerSlice(s: string, i: nat, j: nat)
    requires i <= j <= |s|
    ensures Lower(s)[i..j] == Lower(s[i..j])
  {
  }

  /** Lower-casing neither makes nor removes whitespace. */
  lemma LowerSameSpaces(s: string)
    ensures SameSpaces(s, Lower(s))
  {
  }

  /** A string with no whitespace at either end is its own `strip()`. */
  lemma StripNoSpace(s: string)
    requires s != [] && !IsSpace(s[0]) && !IsSpace(s[|s| - 1])
    ensures Strip(s) == s
  {
  }

  /** `sub` occurs in `s` at index `i`. */
  predicate OccursAt(s: string, sub: string, i: int)
  {
    0 <= i && i + |sub| <= |s| && s[i..i + |sub|] == sub
  }

  /** The leftmost occurrence of `sub` in `s` at or after `from`, or -1. */
  function IndexFrom(s: string, sub: string, from: nat): (r: int)
    decreases |s| - from
    ensures r == -1 || (from <= r && OccursAt(s, sub, r))
    ensures r == -1 ==> forall i :: from <= i ==> !OccursAt(s, sub, i)
    ensures r != -1 ==> forall i :: from <= i < r ==> !OccursAt(s, sub, i)
  {
    if from + |sub| > |s| then -1
    else if s[from..from + |sub|] == sub then from
    else IndexFrom(s, sub, from + 1)
  }

  /** `s.find(sub)`: the leftmost index where `sub` occurs, or -1. */
  function Find(s: string, sub: string): int
  {
    IndexFrom(s, sub, 0)
  }

  /** `sub in s` */
  predicate Contains(s: string, sub: string)
  {
    Find(s, sub) >= 0
  }

  /** `sub in s` holds exactly when `sub` occurs somewhere in `s`. */
  lemma ContainsIff(s: string, sub: string)
    ensures Contains(s, sub) <==> exists i :: OccursAt(s, sub, i)
  {
  }

  lemma ContainsAt(s: string, sub: string, i: int)
    requires OccursAt(s, sub, i)
    ensures Contains(s, sub)
  {
  }

  /** `any(t in s for t in terms)` */
  predicate ContainsAny(s: string, terms: seq<string>)
  {
    exists k :: 0 <= k < |terms| && Contains(s, terms[k])
  }

  /** Every character of `s` is one of `allowed`. */
  predicate OnlyChars(s: string, allowed: set<char>)
  {
    forall i :: 0 <= i < |s| ==> s[i] in allowed
  }

  lemma OccurrenceCharsIn(s: string, t: string, i: int)
    requires OccursAt(s, t, i)
    ensures forall k :: 0 <= k < |t| ==> t[k] in s
  {
    assert forall k :: 0 <= k < |t| ==> t[k] == s[i + k];
  }

  /** A text cannot contain a term with a character the text never uses. */
  lemma ForeignCharNotContained(s: string, allowed: set<char>, t: string, k: int)
    requires OnlyChars(s, allowed)
    requires 0 <= k < |t| && t[k] !in allowed
    ensures !Contains(s, t)
  {
    if Contains(s, t) {
      OccurrenceCharsIn(s, t, Find(s, t));
    }
  }

  lemma PairOccurrence(s: string, t: string, i: int)
    requires OccursAt(s, t, i) && |t| == 2
    ensures s[i] == t[0] && s[i + 1] == t[1]
  {
    assert s[i..i + 2][0] == s[i];
    assert s[i..i + 2][1] == s[i + 1];
  }

  /** A two-character term is absent when its two characters never stand side by side. */
  lemma PairNotContained(s: string, t: string)
    requires |t| == 2
    requires forall i :: 0 <= i < |s| - 1 ==> !(s[i] == t[0] && s[i + 1] == t[1])
    ensures !Contains(s, t)
  {
    if Contains(s, t) {
      PairOccurrence(s, t, Find(s, t));
    }
  }

  /** `s.startswith(p)` */
  predicate StartsWith(s: string, p: string)
  {
    |p| <= |s| && s[..|p|] == p
  }

  /** `s.endswith(p)` */
  predicate EndsWith(s: string, p: string)
  {
    |p| <= |s| && s[|s| - |p|..] == p
  }

  /** `s.split(sep, 1)` for a non-empty separator: the text before and after the
      leftmost `sep`, or `None` (a one-element list) when `sep` does not occur. */
  function SplitOnce(s: string, sep: string): (r: Option<(string, string)>)
    requires sep != []
    ensures r.None? <==> !Contains(s, sep)
    ensures r.Some? ==> s == r.value.0 + sep + r.value.1
    ensures r.Some? ==> forall i :: 0 <= i < |r.value.0| ==> !OccursAt(s, sep, i)
  {
    var k := Find(s, sep);
    if k < 0 then None
    else
      assert s == s[..k] + sep + s[k + |sep|..];
      Some((s[..k], s[k + |sep|..]))
  }

  /** Splitting `pre + sep + post` when `sep` does not start inside `pre` gives
      back `pre` and `post`. */
  lemma SplitOnceAt(pre: string, sep: string, post: string)
    requires sep != []
    requires forall i :: 0 <= i < |pre| ==> !OccursAt(pre + sep + post, sep, i)
    ensures SplitOnce(pre + sep + post, sep) == Some((pre, post))
  {
    var s := pre + sep + post;
    var n := |pre|;
    assert OccursAt(s, sep, n) by {
      assert s[n..n + |sep|] == sep;
    }
    var x := SplitOnce(s, sep).value.0;
    assert OccursAt(s, sep, |x|) by {
      assert s[|x|..|x| + |sep|] == sep;
    }
    assert |x| == n;
    assert x == s[..n] == pre;
  }

  /** What a prefix contains, the whole text contains. */
  lemma ContainsPrefix(s: string, n: nat, sub: string)
    requires n <= |s| && Contains(s[..n], sub)
    ensures Contains(s, sub)
  {
    var i := Find(s[..n], sub);
    assert s[..n][i..i + |sub|] == s[i..i + |sub|];
    ContainsAt(s, sub, i);
  }

  /** An occurrence of a lower-case term survives lower-casing the text. */
  lemma LowerKeepsOccurrence(s: string, sub: string, i: int)
    requires OccursAt(s, sub, i) && Lower(sub) == sub
    ensures Contains(Lower(s), sub)
  {
    LowerSlice(s, i, i + |sub|);
    ContainsAt(Lower(s), sub, i);
  }

  predicate AllDigits(s: string)
  {
    forall i :: 0 <= i < |s| ==> IsDigit(s[i])
  }

  /** `s.isdigit()` on ASCII: non-empty and all digits. */
  predicate IsDigitString(s: string)
  {
    s != [] && AllDigits(s)
  }

  function DigitValue(c: char): nat
    requires IsDigit(c)
  {
    c as int - '0' as int
  }

  function DigitChar(d: nat): (c: char)
    requires d < 10
    ensures IsDigit(c) && DigitValue(c) == d
  {
    ('0' as int + d) as char
  }

  /** The number a string of decimal digits denotes. */
  function DigitsValue(s: string): nat
    requires AllDigits(s)
  {
    if s == [] then 0 else 10 * DigitsValue(s[..|s| - 1]) + DigitValue(s[|s| - 1])
  }

  /** `str(n)` for a natural number: its shortest decimal numeral. */
  function NatToStr(n: nat): (r: string)
    ensures IsDigitString(r)
    ensures DigitsValue(r) == n
    ensures r[0] == '0' ==> n == 0 && |r| == 1
  {
    if n < 10 then [DigitChar(n)]
    else
      var r := NatToStr(n / 10) + [DigitChar(n % 10)];
      assert r[..|r| - 1] == NatToStr(n / 10);
      r
  }

  /** `str(i)` for an integer. */
  function IntToStr(i: int): string
  {
    if i < 0 then "-" + NatToStr(-i) else NatToStr(i)
  }

  /** The digits of `s` with every underscore dropped. */
  function RemoveUnderscores(s: string): (r: string)
    requires forall i :: 0 <= i < |s| ==> IsDigit(s[i]) || s[i] == '_'
    ensures AllDigits(r)
  {
    if s == [] then []
    else if s[0] == '_' then RemoveUnderscores(s[1..])
    else [s[0]] + RemoveUnderscores(s[1..])
  }

  lemma {:induction false} RemoveUnderscoresDigits(s: string)
    requires AllDigits(s)
    ensures RemoveUnderscores(s) == s
  {
    if s != [] {
      RemoveUnderscoresDigits(s[1..]);
    }
  }

  /** What `int()` accepts between the sign and the end: digits, where single
      underscores may separate two digits. */
  predicate IsIntBody(b: string)
  {
    && b != []
    && IsDigit(b[0])
    && IsDigit(b[|b| - 1])
    && (forall i :: 0 <= i < |b| ==> IsDigit(b[i]) || b[i] == '_')
    && (forall i, j :: 0 <= i < |b| && 0 <= j < |b| && j == i + 1 && b[i] == '_' ==> IsDigit(b[j]))
  }

  /** `int(s)` for a string: `None` where Python raises `ValueError`. */
  function ParseInt(s: string): Option<int>
  {
    ParseStripped(Strip(s))
  }

  /** `int()` of text without surrounding whitespace: an optional sign, then a body. */
  function ParseStripped(t: string): Option<int>
  {
    if t != [] && (t[0] == '+' || t[0] == '-') then
      var b := t[1..];
      if IsIntBody(b) then
        var n: int := DigitsValue(RemoveUnderscores(b));
        Some(if t[0] == '-' then -n else n)
      else None
    else if IsIntBody(t) then Some(DigitsValue(RemoveUnderscores(t)))
    else None
  }

  /** `int(str(i)) == i` */
  lemma ParseIntToStr(i: int)
    ensures ParseInt(IntToStr(i)) == Some(i)
  {
    var n: nat := if i < 0 then -i else i;
    var d := NatToStr(n);
    NatIntBody(n);
    if i < 0 {
      ParseNegative(d);
    } else {
      ParseUnsigned(d);
    }
  }

  lemma ParseUnsigned(d: string)
    requires IsIntBody(d)
    ensures ParseInt(d) == Some(DigitsValue(RemoveUnderscores(d)))
  {
    StripNoSpace(d);
  }

  lemma ParseNegative(d: string)
    requires IsIntBody(d)
    ensures ParseInt("-" + d) == Some(0 - DigitsValue(RemoveUnderscores(d)))
  {
    var s := "-" + d;
    SignedNoSpace(d);
    assert s[1..] == d;
    ParseSigned(s);
  }

  /** A minus sign before a text ending in a digit leaves nothing to strip. */
  lemma SignedNoSpace(d: string)
    requires d != [] && IsDigit(d[|d| - 1])
    ensures Strip("-" + d) == "-" + d
  {
    var s := "-" + d;
    assert s[|s| - 1] == d[|d| - 1];
    StripNoSpace(s);
  }

  /** A sign followed by a valid body. */
  lemma ParseSigned(t: string)
    requires t != [] && (t[0] == '+' || t[0] == '-') && IsIntBody(t[1..])
    ensures var n: int := DigitsValue(RemoveUnderscores(t[1..]));
            ParseStripped(t) == Some(if t[0] == '-' then -n else n)
  {
  }

  /** A numeral `str` produces is a valid `int()` body that denotes the number. */
  lemma NatIntBody(n: nat)
    ensures IsIntBody(NatToStr(n))
    ensures DigitsValue(RemoveUnderscores(NatToStr(n))) == n
  {
    RemoveUnderscoresDigits(NatToStr(n));
  }
}
