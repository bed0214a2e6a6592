/**
 * The parts of java.lang that the application's rules depend on: the range of
 * `long`, ASCII case folding (`toLowerCase`, `equalsIgnoreCase`), `indexOf` /
 * `contains`, `trim`, and the decimal text of a `long` (`Long.parseLong`,
 * `Long.toString`).
 */
module JavaLang {
  import opened Wrappers

  const MinLong: int := -0x8000_0000_0000_0000
  const MaxLong: int := 0x7fff_ffff_ffff_ffff

  /** Java's 64-bit two's-complement `long` (and a non-null `Long`). */
  type Long = x: int | -0x8000_0000_0000_0000 <= x <= 0x7fff_ffff_ffff_ffff

  /** `x + 1` on a `long`: Long.MAX_VALUE wraps around to Long.MIN_VALUE. */
  function Increment(x: Long): Long
  {
    if x == MaxLong then MinLong else x + 1
  }

  // ---------------------------------------------------------------------------
  // Case folding (ASCII letters; other characters are left as they are)

  function LowerChar(c: char): char
  {
    if 'A' <= c <= 'Z' then (c as int + 32) as char else c
  }

  function UpperChar(c: char): char
  {
    if 'a' <= c <= 'z' then (c as int - 32) as char else c
  }

  /** String.toLowerCase: every character folded, length kept. */
  function ToLowerCase(s: string): (r: string)
    ensures |r| == |s|
    ensures forall i :: 0 <= i < |s| ==> r[i] == LowerChar(s[i])
  {
    if s == [] then [] else [LowerChar(s[0])] + ToLowerCase(s[1..])
  }

  /** The character test of String.equalsIgnoreCase (regionMatches with ignoreCase). */
  predicate CharEqualsIgnoreCase(a: char, b: char)
  {
    a == b || UpperChar(a) == UpperChar(b) || LowerChar(UpperChar(a)) == LowerChar(UpperChar(b))
  }

  /** String.equalsIgnoreCase on a non-null argument. */
  predicate EqualsIgnoreCase(a: string, b: string)
  {
    |a| == |b| && forall i :: 0 <= i < |a| ==> CharEqualsIgnoreCase(a[i], b[i])
  }

  lemma CharEqualsIgnoreCaseIffLower(a: char, b: char)
    ensures CharEqualsIgnoreCase(a, b) <==> LowerChar(a) == LowerChar(b)
  {
  }

  /** equalsIgnoreCase holds exactly when both strings fold to the same lower-case text. */
  lemma EqualsIgnoreCaseIffLowerEqual(a: string, b: string)
    ensures EqualsIgnoreCase(a, b) <==> ToLowerCase(a) == ToLowerCase(b)
  {
    var la, lb := ToLowerCase(a), ToLowerCase(b);
    if |a| == |b| {
      forall i | 0 <= i < |a|
        ensures CharEqualsIgnoreCase(a[i], b[i]) <==> la[i] == lb[i]
      {
        CharEqualsIgnoreCaseIffLower(a[i], b[i]);
      }
      if EqualsIgnoreCase(a, b) {
        assert forall i :: 0 <= i < |a| ==> la[i] == lb[i];
      }
    } else {
      assert |la| != |lb|;
    }
  }

  /** equalsIgnoreCase is an equivalence relation. */
  lemma EqualsIgnoreCaseIsEquivalence(a: string, b: string, c: string)
    ensures EqualsIgnoreCase(a, a)
    ensures EqualsIgnoreCase(a, b) ==> EqualsIgnoreCase(b, a)
    ensures EqualsIgnoreCase(a, b) && EqualsIgnoreCase(b, c) ==> EqualsIgnoreCase(a, c)
  {
    EqualsIgnoreCaseIffLowerEqual(a, a);
    EqualsIgnoreCaseIffLowerEqual(a, b);
    EqualsIgnoreCaseIffLowerEqual(b, a);
    EqualsIgnoreCaseIffLowerEqual(b, c);
    EqualsIgnoreCaseIffLowerEqual(a, c);
  }

  // ---------------------------------------------------------------------------
  // Searching: String.indexOf, String.contains, String.startsWith

  /** `sub` occurs in `s` starting at position `k`. */
  predicate OccursAt(s: string, sub: string, k: nat)
  {
    k + |sub| <= |s| && s[k..k + |sub|] == sub
  }

  function IndexFrom(s: string, sub: string, from: nat): (i: int)
    requires from <= |s|
    ensures i == -1 || (from <= i && OccursAt(s, sub, i))
    ensures i == -1 ==> forall k :: from <= k ==> !OccursAt(s, sub, k)
    ensures i != -1 ==> forall k :: from <= k < i ==> !OccursAt(s, sub, k)
    decreases |s| - from
  {
    if from + |sub| > |s| then -1
    else if s[from..from + |sub|] == sub then from
    else if from == |s| then -1
    else IndexFrom(s, sub, from + 1)
  }

  /** String.indexOf: the first position where `sub` occurs, or -1. */
  function IndexOf(s: string, sub: string): (i: int)
    ensures i == -1 || (0 <= i && OccursAt(s, sub, i))
    ensures i == -1 <==> forall k :: 0 <= k ==> !OccursAt(s, sub, k)
    ensures forall k :: 0 <= k < i ==> !OccursAt(s, sub, k)
  {
    IndexFrom(s, sub, 0)
  }

  /** String.contains, which Java defines as `indexOf(sub) >= 0`. */
  predicate Contains(s: string, sub: string)
  {
    IndexOf(s, sub) >= 0
  }

  /** `text.toLowerCase().contains(query.toLowerCase())`, the search screens' substring test. */
  predicate ContainsIgnoringCase(text: string, query: string)
  {
    Contains(ToLowerCase(text), ToLowerCase(query))
  }

  /** Every string contains the empty string, in any letter case. */
  lemma ContainsEmpty(text: string)
    ensures Contains(text, "") && ContainsIgnoringCase(text, "")
  {
    assert OccursAt(text, "", 0);
    assert OccursAt(ToLowerCase(text), ToLowerCase(""), 0);
  }

  /** String.startsWith. */
  predicate StartsWith(s: string, prefix: string)
  {
    prefix <= s
  }

  /** Every string contains itself, and a string that occurs somewhere is contained. */
  lemma ContainsOccurrence(s: string, sub: string, k: nat)
    requires OccursAt(s, sub, k)
    ensures Contains(s, sub)
  {
  }

  // ---------------------------------------------------------------------------
  // String.trim: strip every leading and trailing character <= U+0020

  predicate IsSpace(c: char)
  {
    c <= ' '
  }

  function LeadingSpaces(s: string): (n: nat)
    ensures n <= |s|
    ensures forall k :: 0 <= k < n ==> IsSpace(s[k])
    ensures n < |s| ==> !IsSpace(s[n])
  {
    if s == [] || !IsSpace(s[0]) then 0 else 1 + LeadingSpaces(s[1..])
  }

  function TrailingSpaces(s: string): (n: nat)
    ensures n <= |s|
    ensures forall k :: |s| - n <= k < |s| ==> IsSpace(s[k])
    ensures n < |s| ==> !IsSpace(s[|s| - 1 - n])
  {
    if s == [] || !IsSpace(s[|s| - 1]) then 0 else 1 + TrailingSpaces(s[..|s| - 1])
  }

  /** String.trim: the middle of `s` left once the spaces at both ends are gone. */
  function Trim(s: string): (r: string)
    ensures LeadingSpaces(s) + |r| <= |s|
    ensures r == s[LeadingSpaces(s)..LeadingSpaces(s) + |r|]
    ensures forall k :: 0 <= k < LeadingSpaces(s) ==> IsSpace(s[k])
    ensures forall k :: LeadingSpaces(s) + |r| <= k < |s| ==> IsSpace(s[k])
    ensures r != [] ==> !IsSpace(r[0]) && !IsSpace(r[|r| - 1])
  {
    var rest := s[LeadingSpaces(s)..];
    rest[..|rest| - TrailingSpaces(rest)]
  }

  /** A string trims to nothing exactly when every character in it is a space. */
  lemma TrimEmptyIffAllSpaces(s: string)
    ensures Trim(s) == [] <==> forall k :: 0 <= k < |s| ==> IsSpace(s[k])
  {
    var r := Trim(s);
    if r != [] {
      assert r[0] == s[LeadingSpaces(s)];
    }
  }

  /** Trimming twice changes nothing more. */
  lemma TrimIdempotent(s: string)
    ensures Trim(Trim(s)) == Trim(s)
  {
    var r := Trim(s);
    if r != [] {
      assert LeadingSpaces(r) == 0;
      assert TrailingSpaces(r) == 0;
    }
  }

  // ---------------------------------------------------------------------------
  // Decimal text of a long: Long.parseLong and Long.toString

  predicate IsDigit(c: char)
  {
    '0' <= c <= '9'
  }

  predicate AllDigits(s: string)
  {
    forall i :: 0 <= i < |s| ==> IsDigit(s[i])
  }

  function DigitChar(d: nat): (c: char)
    requires d < 10
    ensures IsDigit(c)
  {
    ('0' as int + d) as char
  }

  /** The value of a run of decimal digits, most significant first. */
  function DigitsValue(s: string): nat
    requires AllDigits(s)
    decreases |s|
  {
    if s == [] then 0 else DigitsValue(s[..|s| - 1]) * 10 + (s[|s| - 1] as int - '0' as int)
  }

  /** The shortest decimal text of `n`. */
  function NatToDigits(n: nat): (s: string)
    ensures AllDigits(s) && |s| >= 1
  {
    if n < 10 then [DigitChar(n)] else NatToDigits(n / 10) + [DigitChar(n % 10)]
  }

  /** Long.toString. */
  function LongToString(n: Long): string
  {
    if n < 0 then "-" + NatToDigits(-(n as int)) else NatToDigits(n)
  }

  /**
   * Long.parseLong: an optional sign followed by at least one decimal digit,
   * whose value lies in the range of `long`; `None` where Java throws
   * NumberFormatException.
   */
  function ParseLong(s: string): (r: Option<Long>)
    ensures r.Some? ==> |s| > 0
    ensures r.Some? && IsDigit(s[0]) ==> AllDigits(s) && r.value == DigitsValue(s)
    ensures r.Some? && s[0] == '-' ==> AllDigits(s[1..]) && r.value == -(DigitsValue(s[1..]) as int)
  {
    if |s| == 0 then None
    else if s[0] == '-' || s[0] == '+' then
      if |s| == 1 || !AllDigits(s[1..]) then None
      else
        var v := if s[0] == '-' then -(DigitsValue(s[1..]) as int) else DigitsValue(s[1..]) as int;
        if MinLong <= v <= MaxLong then Some(v) else None
    else if AllDigits(s) && DigitsValue(s) <= MaxLong then Some(DigitsValue(s))
    else None
  }

  lemma {:induction false} DigitsRoundTrip(n: nat)
    ensures DigitsValue(NatToDigits(n)) == n
  {
    if n >= 10 {
      DigitsRoundTrip(n / 10);
      var s := NatToDigits(n);
      assert s[..|s| - 1] == NatToDigits(n / 10);
    }
  }

  /** Long.parseLong reads back what Long.toString wrote. */
  lemma ParseLongToString(n: Long)
    ensures ParseLong(LongToString(n)) == Some(n)
  {
    if n < 0 {
      DigitsRoundTrip(-(n as int));
      assert LongToString(n)[1..] == NatToDigits(-(n as int));
    } else {
      DigitsRoundTrip(n);
    }
  }
}
