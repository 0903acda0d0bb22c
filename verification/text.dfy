/** String operations the pages rely on, with the meaning JavaScript gives them. */
module Text {

  datatype Option<T> = None | Some(value: T)

  /** `s.startsWith(p)`: `s` begins with the characters of `p`, in order. */
  predicate HasPrefix(s: string, p: string): (r: bool)
    ensures r <==> exists t :: s == p + t
  {
    assert |p| <= |s| && s[..|p|] == p ==> s == p + s[|p|..];
    |p| <= |s| && s[..|p|] == p
  }

  /** `pat` stands in `s` starting at index `i`. */
  predicate OccursAt(s: string, pat: string, i: nat) {
    i + |pat| <= |s| && s[i..i + |pat|] == pat
  }

  /** The index of the first occurrence of `pat` in `s` at or after `from`,
      or None when there is none; for `from <= |s|` this is
      `s.indexOf(pat, from)` (JavaScript clamps a larger `from` to `|s|`). */
  function IndexFrom(s: string, pat: string, from: nat): (r: Option<nat>)
    ensures r.Some? ==> from <= r.value && OccursAt(s, pat, r.value)
    ensures r.Some? ==> forall i :: from <= i < r.value ==> !OccursAt(s, pat, i)
    ensures r.None? ==> forall i :: from <= i ==> !OccursAt(s, pat, i)
    decreases |s| - from
  {
    if from + |pat| > |s| then None
    else if s[from..from + |pat|] == pat then Some(from)
    else IndexFrom(s, pat, from + 1)
  }

  /** JavaScript's identity `s.startsWith(p) === (s.indexOf(p) === 0)`. */
  lemma StartsWithIndexOf(s: string, p: string)
    ensures HasPrefix(s, p) <==> IndexFrom(s, p, 0) == Some(0)
  {
    if HasPrefix(s, p) {
      assert OccursAt(s, p, 0);
    }
  }

  /** `s.replace(pat, "")` with a string pattern: only the first occurrence goes. */
  function RemoveFirst(s: string, pat: string): (r: string)
    ensures HasPrefix(s, pat) ==> r == s[|pat|..]
    ensures (forall i: nat :: !OccursAt(s, pat, i)) ==> r == s
    ensures |r| == |s| || |r| + |pat| == |s|
  {
    match IndexFrom(s, pat, 0)
    case None => s
    case Some(i) => s[..i] + s[i + |pat|..]
  }

  predicate IsDigit(c: char) {
    '0' <= c <= '9'
  }

  predicate AllDigits(s: string) {
    forall i :: 0 <= i < |s| ==> IsDigit(s[i])
  }

  function Pow10(n: nat): (p: nat)
    ensures p >= 1
  {
    if n == 0 then 1 else 10 * Pow10(n - 1)
  }

  /** `parseInt(s)` for a string made of decimal digits only, as an exact
      integer: the value of `s` read in base ten, below 10 to the power of
      its length. */
  function ParseDigits(s: string): (n: nat)
    requires AllDigits(s)
    ensures n < Pow10(|s|)
    decreases |s|
  {
    if s == [] then 0
    else ParseDigits(s[..|s| - 1]) * 10 + (s[|s| - 1] as int - '0' as int)
  }

  /** A digit string without a leading zero (or the single digit `0`): the
      form in which a number is written. */
  predicate Canonical(s: string) {
    AllDigits(s) && |s| > 0 && (s[0] == '0' ==> |s| == 1)
  }

  lemma {:induction false} Pow10Monotone(m: nat, n: nat)
    requires m <= n
    ensures Pow10(m) <= Pow10(n)
    decreases n
  {
    if m < n {
      Pow10Monotone(m, n - 1);
    }
  }

  /** A digit string not starting with `0` reads as at least 10 to the power
      of its length less one. */
  lemma {:induction false} ParseLowerBound(s: string)
    requires AllDigits(s) && |s| > 0 && s[0] != '0'
    ensures Pow10(|s| - 1) <= ParseDigits(s)
    decreases |s|
  {
    if |s| > 1 {
      var init := s[..|s| - 1];
      assert init[0] == s[0];
      ParseLowerBound(init);
    }
  }

  /** The last digit and the rest are recovered from the value. */
  lemma LastDigitUnique(x: nat, d: int, y: nat, e: int)
    requires 0 <= d < 10 && 0 <= e < 10 && x * 10 + d == y * 10 + e
    ensures x == y && d == e
  {
  }

  /** Two digit strings of one length with the same value are equal. */
  lemma {:induction false} SameLengthInjective(a: string, b: string)
    requires AllDigits(a) && AllDigits(b) && |a| == |b|
    requires ParseDigits(a) == ParseDigits(b)
    ensures a == b
    decreases |a|
  {
    if a != [] {
      var ia, ib := a[..|a| - 1], b[..|b| - 1];
      LastDigitUnique(ParseDigits(ia), a[|a| - 1] as int - '0' as int, ParseDigits(ib), b[|b| - 1] as int - '0' as int);
      SameLengthInjective(ia, ib);
      assert a == ia + [a[|a| - 1]] && b == ib + [b[|b| - 1]];
    }
  }

  /** Of two numbers written without leading zeros, the one with fewer
      digits is the smaller. */
  lemma ShorterIsSmaller(a: string, b: string)
    requires Canonical(a) && Canonical(b)
    ensures |a| < |b| ==> ParseDigits(a) < ParseDigits(b)
  {
    if |a| < |b| {
      ParseLowerBound(b);
      Pow10Monotone(|a|, |b| - 1);
    }
  }

  /** Written without leading zeros, different digit strings read as
      different numbers: `parseInt` is one-to-one on them. */
  lemma ParseInjective(a: string, b: string)
    requires Canonical(a) && Canonical(b)
    requires ParseDigits(a) == ParseDigits(b)
    ensures a == b
  {
    ShorterIsSmaller(a, b);
    ShorterIsSmaller(b, a);
    SameLengthInjective(a, b);
  }

  /** Leading zeros do not change the number: `parseInt("01") == parseInt("1")`. */
  lemma {:induction false} LeadingZero(t: string)
    requires AllDigits(t)
    ensures AllDigits("0" + t) && ParseDigits("0" + t) == ParseDigits(t)
    decreases |t|
  {
    var s := "0" + t;
    assert AllDigits(s);
    if t == [] {
      assert s[..0] == [];
    } else {
      var init := t[..|t| - 1];
      LeadingZero(init);
      assert s[..|s| - 1] == "0" + init;
      assert s[|s| - 1] == t[|t| - 1];
    }
  }

  /** JavaScript's `a < b` on strings: lexicographic order on characters,
      a proper prefix coming first. (Dafny's own `<` on sequences means
      "proper prefix" only.) */
  predicate Less(a: string, b: string): (r: bool)
    ensures r ==> a != b
    ensures |a| < |b| && a == b[..|a|] ==> r
    decreases |a|
  {
    if |b| == 0 then false
    else if |a| == 0 then true
    else if a[0] != b[0] then a[0] < b[0]
    else Less(a[1..], b[1..])
  }

  /** At the first position where the strings differ, the smaller character
      decides. */
  lemma {:induction false} LessAtFirstDifference(a: string, b: string, i: nat)
    requires i < |a| && i < |b| && a[..i] == b[..i] && a[i] != b[i]
    ensures Less(a, b) <==> a[i] < b[i]
    decreases i
  {
    if i > 0 {
      assert a[0] == a[..i][0] == b[..i][0] == b[0];
      assert a[1..][..i - 1] == a[..i][1..] == b[..i][1..] == b[1..][..i - 1];
      LessAtFirstDifference(a[1..], b[1..], i - 1);
    }
  }

  /** A string never comes before one of its own prefixes, itself included. */
  lemma {:induction false} NotLessThanPrefix(a: string, b: string)
    requires |b| <= |a| && a[..|b|] == b
    ensures !Less(a, b)
    decreases |b|
  {
    if |b| > 0 {
      assert a[0] == b[0];
      assert a[1..][..|b| - 1] == b[1..];
      NotLessThanPrefix(a[1..], b[1..]);
    }
  }

  /** Comparing with a one-character string looks at the first character
      only, and the empty string comes first. */
  lemma LessThanChar(a: string, c: char)
    ensures Less(a, [c]) <==> |a| == 0 || a[0] < c
  {
    if |a| > 0 && a[0] == c {
      assert Less(a, [c]) == Less(a[1..], [c][1..]);
      assert [c][1..] == [];
    }
  }

  /** A one-character string comes before `b` when its character is smaller
      than `b`'s first, or when `b` starts with it and goes on. */
  lemma CharLessThan(c: char, b: string)
    ensures Less([c], b) <==> |b| > 0 && (c < b[0] || (c == b[0] && |b| > 1))
  {
    if |b| > 0 && b[0] == c {
      assert Less([c], b) == Less([c][1..], b[1..]);
      assert [c][1..] == [];
    }
  }
}
