/**
 * The parts of the C++ string library the renderer relies on:
 * `std::string::find` (with `npos` as `None`) and `std::to_string` on an `int`,
 * plus the inverse of `to_string`, a splitter used to state round trips, and
 * the ascending key order in which a `std::map<std::string, ...>` is visited.
 */
module Text {
  import opened Wrappers

  /** `pat` occurs in `s` starting at index `k`. */
  predicate OccursAt(s: string, pat: string, k: int)
  {
    0 <= k && k + |pat| <= |s| && s[k..k + |pat|] == pat
  }

  /** `s.find(pat, from)`: the first occurrence of `pat` at or after `from`. */
  function Find(s: string, pat: string, from: nat): (r: Option<nat>)
    ensures r.Some? ==> from <= r.value && r.value + |pat| <= |s|
    decreases |s| - from
  {
    if from + |pat| > |s| then None
    else if MatchesFrom(s, pat, from, 0) then Some(from)
    else Find(s, pat, from + 1)
  }

  /** The characters of `pat` from index `i` on sit at `k + i` onwards in `s`. */
  predicate MatchesFrom(s: string, pat: string, k: nat, i: nat)
    requires k + |pat| <= |s| && i <= |pat|
    decreases |pat| - i
  {
    i == |pat| || (s[k + i] == pat[i] && MatchesFrom(s, pat, k, i + 1))
  }

  /** Matching character by character is matching the slice. */
  lemma {:induction false} MatchesFromSlice(s: string, pat: string, k: nat, i: nat)
    requires k + |pat| <= |s| && i <= |pat|
    ensures MatchesFrom(s, pat, k, i) <==> s[k + i..k + |pat|] == pat[i..]
    decreases |pat| - i
  {
    if i < |pat| {
      MatchesFromSlice(s, pat, k, i + 1);
      assert s[k + i..k + |pat|] == [s[k + i]] + s[k + i + 1..k + |pat|];
      assert pat[i..] == [pat[i]] + pat[i + 1..];
    }
  }

  /** The test `find` makes at each position is an occurrence test. */
  lemma MatchesOccurs(s: string, pat: string, k: nat)
    requires k + |pat| <= |s|
    ensures MatchesFrom(s, pat, k, 0) <==> OccursAt(s, pat, k)
  {
    MatchesFromSlice(s, pat, k, 0);
  }

  /** `find` returns the first occurrence at or after `from`, and `npos` only when there is none. */
  lemma {:induction false} FindSpec(s: string, pat: string, from: nat)
    ensures Find(s, pat, from).Some? ==>
      var k := Find(s, pat, from).value;
      OccursAt(s, pat, k) && forall j :: from <= j < k ==> !OccursAt(s, pat, j)
    ensures Find(s, pat, from).None? ==> forall j :: from <= j ==> !OccursAt(s, pat, j)
    decreases |s| - from
  {
    if from + |pat| <= |s| {
      MatchesOccurs(s, pat, from);
      if !OccursAt(s, pat, from) {
        FindSpec(s, pat, from + 1);
      }
    }
  }

  /** The position `find` returns holds the pattern. */
  lemma {:induction false} FindFound(s: string, pat: string, from: nat)
    ensures Find(s, pat, from).Some? ==> OccursAt(s, pat, Find(s, pat, from).value)
    decreases |s| - from
  {
    if from + |pat| <= |s| {
      MatchesOccurs(s, pat, from);
      if !OccursAt(s, pat, from) {
        FindFound(s, pat, from + 1);
      }
    }
  }

  /** A position whose character differs from the pattern's first is skipped. */
  lemma FindSkip(s: string, pat: string, from: nat)
    requires 0 < |pat| && from < |s| && s[from] != pat[0]
    ensures Find(s, pat, from) == Find(s, pat, from + 1)
  {
  }

  /** A found position is pinned down by its occurrence and the absence of earlier ones. */
  lemma FindIs(s: string, pat: string, from: nat, k: nat)
    requires from <= k && OccursAt(s, pat, k)
    requires forall j :: from <= j < k ==> !OccursAt(s, pat, j)
    ensures Find(s, pat, from) == Some(k)
  {
    FindSpec(s, pat, from);
  }

  /**
   * `find` stops at `k` when no earlier start can match: the character the
   * pattern has at offset `i` is absent from the positions an earlier match would need it at.
   */
  lemma FindFirst(s: string, pat: string, from: nat, k: nat, i: nat)
    requires from <= k && OccursAt(s, pat, k) && i < |pat|
    requires forall j | from + i <= j < k + i :: s[j] != pat[i]
    ensures Find(s, pat, from) == Some(k)
  {
    forall j | from <= j < k ensures !OccursAt(s, pat, j) {
      if OccursAt(s, pat, j) {
        OccursAtIndex(s, pat, j, i);
      }
    }
    FindIs(s, pat, from, k);
  }

  /** `find` fails when the pattern's character at offset `i` never occurs where a match needs it. */
  lemma FindNone(s: string, pat: string, from: nat, i: nat)
    requires i < |pat|
    requires forall j | from + i <= j < |s| :: s[j] != pat[i]
    ensures Find(s, pat, from) == None
  {
    FindFound(s, pat, from);
    if Find(s, pat, from).Some? {
      OccursAtIndex(s, pat, Find(s, pat, from).value, i);
    }
  }

  lemma SliceJoin(s: string, i: nat, j: nat)
    requires i <= j <= |s|
    ensures s[i..j] + s[j..] == s[i..]
  {
  }

  lemma AppendAssoc(a: string, b: string, c: string)
    ensures (a + b) + c == a + (b + c)
  {
  }

  /** Splitting the second part of a concatenation moves the split point. */
  lemma Regroup(done: string, a: string, b: string, x: string, whole: string)
    requires done + x == whole && x == a + b
    ensures (done + a) + b == whole
  {
    AppendAssoc(done, a, b);
  }

  /** Each character of an occurrence matches the pattern. */
  lemma OccursAtIndex(s: string, pat: string, k: int, i: int)
    requires OccursAt(s, pat, k) && 0 <= i < |pat|
    ensures s[k + i] == pat[i]
  {
    assert s[k..k + |pat|][i] == s[k + i];
  }

  /** A character that differs from the pattern's rules out an occurrence. */
  lemma Mismatch(s: string, pat: string, k: nat, i: nat)
    requires i < |pat| && k + i < |s| && s[k + i] != pat[i]
    ensures !OccursAt(s, pat, k)
  {
    if OccursAt(s, pat, k) {
      OccursAtIndex(s, pat, k, i);
    }
  }

  /** Searching past a prefix is searching the rest, shifted by the prefix. */
  lemma {:induction false} FindShift(pre: string, t: string, pat: string, j: nat)
    ensures Find(pre + t, pat, |pre| + j) ==
      match Find(t, pat, j)
      case None => None
      case Some(k) => Some(|pre| + k)
    decreases |t| - j
  {
    var s := pre + t;
    if j + |pat| <= |t| {
      MatchesOccurs(s, pat, |pre| + j);
      MatchesOccurs(t, pat, j);
      assert s[|pre| + j..|pre| + j + |pat|] == t[j..j + |pat|];
      if !OccursAt(t, pat, j) {
        FindShift(pre, t, pat, j + 1);
      }
    }
  }

  /**
   * `s.find(c, from)` for a single character `c`, or for a one-character
   * string (see `FindOneChar`).
   */
  function IndexOf(s: string, c: char, from: nat): (r: Option<nat>)
    ensures r.Some? ==> from <= r.value < |s| && s[r.value] == c
    decreases |s| - from
  {
    if from >= |s| then None
    else if s[from] == c then Some(from)
    else IndexOf(s, c, from + 1)
  }

  /** `IndexOf` skips only positions not holding `c`, and fails only when none does. */
  lemma {:induction false} IndexOfSpec(s: string, c: char, from: nat)
    ensures IndexOf(s, c, from).Some? ==> forall j :: from <= j < IndexOf(s, c, from).value ==> s[j] != c
    ensures IndexOf(s, c, from).None? ==> forall j :: from <= j < |s| ==> s[j] != c
    decreases |s| - from
  {
    if from < |s| && s[from] != c {
      IndexOfSpec(s, c, from + 1);
    }
  }

  /** What `IndexOf` skips over holds no `c`. */
  lemma IndexOfGap(s: string, c: char, from: nat)
    requires from <= |s|
    ensures IndexOf(s, c, from).Some? ==> c !in s[from..IndexOf(s, c, from).value]
    ensures IndexOf(s, c, from).None? ==> c !in s[from..]
  {
    IndexOfSpec(s, c, from);
  }

  /** The first `c` from `from` on is the one `IndexOf` returns. */
  lemma IndexOfIs(s: string, c: char, from: nat, k: nat)
    requires from <= k < |s| && s[k] == c && c !in s[from..k]
    ensures IndexOf(s, c, from) == Some(k)
  {
    forall j | from <= j < k ensures s[j] != c {
      assert s[j] == s[from..k][j - from];
    }
    IndexOfSpec(s, c, from);
  }

  /** With no `c` from `from` on, `IndexOf` fails. */
  lemma IndexOfNone(s: string, c: char, from: nat)
    requires from <= |s| && c !in s[from..]
    ensures IndexOf(s, c, from) == None
  {
    forall j | from <= j < |s| ensures s[j] != c {
      assert s[j] == s[from..][j - from];
    }
  }

  /** Searching past a prefix for a character is searching the rest, shifted. */
  lemma {:induction false} IndexOfShift(pre: string, t: string, c: char, j: nat)
    ensures IndexOf(pre + t, c, |pre| + j) ==
      match IndexOf(t, c, j)
      case None => None
      case Some(k) => Some(|pre| + k)
    decreases |t| - j
  {
    if j < |t| && t[j] != c {
      IndexOfShift(pre, t, c, j + 1);
    }
  }

  /** Searching for a one-character string is searching for its character. */
  lemma {:induction false} FindOneChar(s: string, c: char, from: nat)
    ensures Find(s, [c], from) == IndexOf(s, c, from)
    decreases |s| - from
  {
    if from < |s| {
      assert MatchesFrom(s, [c], from, 0) <==> s[from] == c;
      if s[from] != c {
        FindOneChar(s, c, from + 1);
      }
    }
  }

  function DigitChar(d: nat): (c: char)
    requires d < 10
    ensures '0' <= c <= '9'
  {
    (48 + d) as char
  }

  predicate IsDigit(c: char) { '0' <= c <= '9' }

  function DigitValue(c: char): (d: nat)
    requires IsDigit(c)
    ensures d < 10 && DigitChar(d) == c
  {
    c as int - 48
  }

  /** The decimal digits of a natural number, most significant first, no leading zero. */
  function Digits(n: nat): (s: string)
    ensures |s| >= 1
    ensures forall i :: 0 <= i < |s| ==> IsDigit(s[i])
    ensures |s| > 1 ==> s[0] != '0'
    decreases n
  {
    if n < 10 then [DigitChar(n)] else Digits(n / 10) + [DigitChar(n % 10)]
  }

  /** `std::to_string(n)` for an `int`. */
  function Decimal(n: int): (s: string)
    ensures |s| >= 1
    ensures ' ' !in s && '\n' !in s
    ensures n >= 0 ==> forall i :: 0 <= i < |s| ==> IsDigit(s[i])
    ensures n < 0 ==> s[0] == '-'
  {
    var s := if n < 0 then "-" + Digits(-n) else Digits(n);
    assert forall i :: 0 <= i < |s| ==> s[i] == '-' || IsDigit(s[i]);
    s
  }

  /** The value of a non-empty string of decimal digits. */
  function DigitsValue(s: string): (n: nat)
    requires |s| >= 1 && forall i :: 0 <= i < |s| ==> IsDigit(s[i])
    decreases |s|
  {
    if |s| == 1 then DigitValue(s[0])
    else DigitsValue(s[..|s| - 1]) * 10 + DigitValue(s[|s| - 1])
  }

  /** Reads back what `Decimal` writes: an optional minus sign and digits. */
  function ParseDecimal(s: string): Option<int>
  {
    if |s| >= 2 && s[0] == '-' && forall i :: 1 <= i < |s| ==> IsDigit(s[i]) then
      var magnitude: int := DigitsValue(s[1..]);
      Some(-magnitude)
    else if |s| >= 1 && forall i :: 0 <= i < |s| ==> IsDigit(s[i]) then
      Some(DigitsValue(s))
    else None
  }

  lemma {:induction false} DigitsRoundTrip(n: nat)
    ensures DigitsValue(Digits(n)) == n
    decreases n
  {
    if n >= 10 {
      DigitsRoundTrip(n / 10);
      var s := Digits(n);
      assert s[..|s| - 1] == Digits(n / 10);
    }
  }

  /** A minus sign followed by digits reads as the negated value of the digits. */
  lemma ParseNegative(d: string)
    requires |d| >= 1 && forall i :: 0 <= i < |d| ==> IsDigit(d[i])
    ensures ParseDecimal("-" + d) == Some(-(DigitsValue(d) as int))
  {
    var s := "-" + d;
    assert s[1..] == d;
    assert forall i :: 1 <= i < |s| ==> s[i] == d[i - 1];
  }

  /** Digits alone read as their value. */
  lemma ParseDigits(d: string)
    requires |d| >= 1 && forall i :: 0 <= i < |d| ==> IsDigit(d[i])
    ensures ParseDecimal(d) == Some(DigitsValue(d))
  {
    assert IsDigit(d[0]);
  }

  /** `to_string` is inverted by `ParseDecimal` for every `int`. */
  lemma DecimalRoundTrip(n: int)
    ensures ParseDecimal(Decimal(n)) == Some(n)
  {
    if n < 0 {
      ParseNegative(Digits(-n));
      DigitsRoundTrip(-n);
    } else {
      ParseDigits(Digits(n));
      DigitsRoundTrip(n);
    }
  }

  /** Splits `s` at the first `c`: the text before it and the text after it. */
  function SplitOnce(s: string, c: char): (r: Option<(string, string)>)
    ensures r.Some? ==> c !in r.value.0 && s == r.value.0 + [c] + r.value.1
    ensures r.None? ==> c !in s
    decreases |s|
  {
    if |s| == 0 then None
    else if s[0] == c then
      assert s == [] + [c] + s[1..];
      Some(([], s[1..]))
    else
      match SplitOnce(s[1..], c)
      case None => None
      case Some((before, after)) =>
        assert s == [s[0]] + s[1..];
        Some(([s[0]] + before, after))
  }

  /** Splitting at the first `c` finds the one placed after a `c`-free prefix. */
  lemma {:induction false} SplitAt(a: string, c: char, b: string)
    requires c !in a
    ensures SplitOnce(a + [c] + b, c) == Some((a, b))
    decreases |a|
  {
    var s := a + [c] + b;
    if a == [] {
      assert s[1..] == b;
    } else {
      assert s[0] == a[0] != c;
      assert s[1..] == a[1..] + [c] + b;
      SplitAt(a[1..], c, b);
      assert [s[0]] + a[1..] == a;
    }
  }

  /** `a` sorts strictly before `b` in `std::string`'s lexicographic order. */
  predicate Below(a: string, b: string)
    decreases |a|
  {
    if a == [] then b != []
    else b != [] && (a[0] < b[0] || (a[0] == b[0] && Below(a[1..], b[1..])))
  }

  lemma {:induction false} BelowIrreflexive(a: string)
    ensures !Below(a, a)
    decreases |a|
  {
    if a != [] {
      BelowIrreflexive(a[1..]);
    }
  }

  lemma {:induction false} BelowAsymmetric(a: string, b: string)
    ensures !(Below(a, b) && Below(b, a))
    decreases |a|
  {
    if a != [] && b != [] && a[0] == b[0] {
      BelowAsymmetric(a[1..], b[1..]);
    }
  }

  lemma {:induction false} BelowTransitive(a: string, b: string, c: string)
    requires Below(a, b) && Below(b, c)
    ensures Below(a, c)
    decreases |a|
  {
    if a != [] && a[0] == b[0] && b[0] == c[0] {
      BelowTransitive(a[1..], b[1..], c[1..]);
    }
  }

  lemma {:induction false} BelowTotal(a: string, b: string)
    requires a != b
    ensures Below(a, b) || Below(b, a)
    decreases |a|
  {
    if a != [] && b != [] && a[0] == b[0] {
      assert a == [a[0]] + a[1..] && b == [b[0]] + b[1..];
      BelowTotal(a[1..], b[1..]);
    }
  }

  /** `k` is the first key of `keys` in ascending order. */
  predicate IsLeast(k: string, keys: set<string>)
  {
    k in keys && forall other | other in keys :: other == k || Below(k, other)
  }

  /** Every non-empty set of keys has a first one, so `std::map` iteration can start. */
  lemma {:induction false} LeastExists(keys: set<string>)
    requires keys != {}
    ensures exists k :: IsLeast(k, keys)
    decreases |keys|
  {
    var x :| x in keys;
    var rest := keys - {x};
    if rest == {} {
      forall other | other in keys
        ensures other == x
      {
        assert other !in rest;
      }
      assert IsLeast(x, keys);
    } else {
      LeastExists(rest);
      var m :| IsLeast(m, rest);
      if Below(x, m) {
        forall other | other in keys
          ensures other == x || Below(x, other)
        {
          if other != x && other != m {
            BelowTransitive(x, m, other);
          }
        }
        assert IsLeast(x, keys);
      } else {
        BelowTotal(x, m);
        assert IsLeast(m, keys);
      }
    }
  }
}
