/**
 * The Python `str` operations the interview engine relies on, written out
 * over `seq<char>`: whitespace classification, `strip`, `lower`, `split`,
 * `split(sep, 1)`, `replace`, `in`, `re.sub(r'\s+', '', s)`, decimal
 * rendering of integers and `int(s)`.
 */
module PyStr {
  import opened Wrappers

  /** `c.isspace()`: the characters that `str.split()`, `str.strip()` and the
      regular-expression class `\s` treat as whitespace. */
  predicate IsSpace(c: char) {
    c == ' ' || ('\t' <= c <= '\r') || ('\U{1c}' <= c <= '\U{1f}')
    || c == '\U{85}' || c == '\U{a0}' || c == '\U{1680}'
    || ('\U{2000}' <= c <= '\U{200a}') || c == '\U{2028}' || c == '\U{2029}'
    || c == '\U{202f}' || c == '\U{205f}' || c == '\U{3000}'
  }

  predicate AllSpace(s: string) {
    forall i :: 0 <= i < |s| ==> IsSpace(s[i])
  }

  predicate NoSpace(s: string) {
    forall i :: 0 <= i < |s| ==> !IsSpace(s[i])
  }

  // ---------------------------------------------------------------- strip

  /** Number of whitespace characters at the front of `s`. */
  function LeadingSpace(s: string): (n: nat)
    ensures n <= |s|
    ensures forall i :: 0 <= i < n ==> IsSpace(s[i])
    ensures n < |s| ==> !IsSpace(s[n])
  {
    if |s| > 0 && IsSpace(s[0]) then 1 + LeadingSpace(s[1..]) else 0
  }

  /** Number of whitespace characters at the back of `s`. */
  function TrailingSpace(s: string): (n: nat)
    ensures n <= |s|
    ensures forall i :: |s| - n <= i < |s| ==> IsSpace(s[i])
    ensures n < |s| ==> !IsSpace(s[|s| - n - 1])
  {
    if |s| > 0 && IsSpace(s[|s| - 1]) then 1 + TrailingSpace(s[..|s| - 1]) else 0
  }

  /** `s.strip()` */
  function Strip(s: string): (r: string)
    ensures |r| <= |s|
    ensures r == "" || (!IsSpace(r[0]) && !IsSpace(r[|r| - 1]))
    ensures r == "" <==> AllSpace(s)
  {
    var t := s[LeadingSpace(s)..];
    t[..|t| - TrailingSpace(t)]
  }

  /** `Strip` removes only whitespace, and only at the two ends. */
  lemma StripDecompose(s: string)
    ensures var a := LeadingSpace(s);
            a + |Strip(s)| <= |s|
            && s == s[..a] + Strip(s) + s[a + |Strip(s)|..]
            && AllSpace(s[..a]) && AllSpace(s[a + |Strip(s)|..])
  {
    var a := LeadingSpace(s);
    StripSlice(s);
    StripCutsSpace(s);
    SplitInThree(s, a, a + |Strip(s)|);
  }

  /** What `Strip` keeps is the slice after the leading whitespace. */
  lemma StripSlice(s: string)
    ensures var a := LeadingSpace(s);
            a + |Strip(s)| <= |s| && Strip(s) == s[a..a + |Strip(s)|]
  {
    var a := LeadingSpace(s);
    var t := s[a..];
    var b := |t| - TrailingSpace(t);
    assert Strip(s) == t[..b];
    assert s[a..a + b] == t[..b];
  }

  /** What `Strip` cuts off at either end is whitespace. */
  lemma StripCutsSpace(s: string)
    ensures var a := LeadingSpace(s);
            a + |Strip(s)| <= |s| && AllSpace(s[..a]) && AllSpace(s[a + |Strip(s)|..])
  {
    var a := LeadingSpace(s);
    var t := s[a..];
    var b := |t| - TrailingSpace(t);
    assert Strip(s) == t[..b];
    assert s[a + b..] == t[b..];
    LeadingIsSpace(s);
    TrailingIsSpace(t);
  }

  lemma LeadingIsSpace(s: string)
    ensures AllSpace(s[..LeadingSpace(s)])
  {
    var a := LeadingSpace(s);
    forall i | 0 <= i < a ensures IsSpace(s[..a][i]) {
      assert s[..a][i] == s[i];
    }
  }

  lemma TrailingIsSpace(t: string)
    ensures AllSpace(t[|t| - TrailingSpace(t)..])
  {
    var b := |t| - TrailingSpace(t);
    forall i | 0 <= i < |t| - b ensures IsSpace(t[b..][i]) {
      assert t[b..][i] == t[b + i];
    }
  }

  lemma SplitInThree(s: string, a: nat, c: nat)
    requires a <= c <= |s|
    ensures s == s[..a] + s[a..c] + s[c..]
  {
    assert s[..c] == s[..a] + s[a..c];
    assert s == s[..c] + s[c..];
  }

  /** The ensures of `LeadingSpace` pin its value down. */
  lemma LeadingSpaceIs(s: string, k: nat)
    requires k <= |s|
    requires forall i :: 0 <= i < k ==> IsSpace(s[i])
    requires k < |s| ==> !IsSpace(s[k])
    ensures LeadingSpace(s) == k
  {
  }

  /** The ensures of `TrailingSpace` pin its value down. */
  lemma TrailingSpaceIs(s: string, k: nat)
    requires k <= |s|
    requires forall i :: |s| - k <= i < |s| ==> IsSpace(s[i])
    requires k < |s| ==> !IsSpace(s[|s| - k - 1])
    ensures TrailingSpace(s) == k
  {
  }

  /** An independent characterisation of `Strip`: whatever is left after
      removing whitespace-only padding from both ends, provided it neither
      starts nor ends with whitespace. */
  lemma StripCharacterization(p: string, m: string, q: string)
    requires AllSpace(p) && AllSpace(q)
    requires m == "" || (!IsSpace(m[0]) && !IsSpace(m[|m| - 1]))
    ensures Strip(p + m + q) == m
  {
    var s := p + m + q;
    if m == "" {
      assert AllSpace(s) by {
        forall i | 0 <= i < |s| ensures IsSpace(s[i]) {
          if i < |p| { assert s[i] == p[i]; } else { assert s[i] == q[i - |p|]; }
        }
      }
    } else {
      assert forall i :: 0 <= i < |p| ==> s[i] == p[i];
      assert s[|p|] == m[0];
      LeadingSpaceIs(s, |p|);
      var t := s[|p|..];
      assert t == m + q;
      assert forall i :: |t| - |q| <= i < |t| ==> t[i] == q[i - |m|];
      assert t[|t| - |q| - 1] == m[|m| - 1];
      TrailingSpaceIs(t, |q|);
      assert t[..|t| - |q|] == m;
    }
  }

  lemma StripIdempotent(s: string)
    ensures Strip(Strip(s)) == Strip(s)
  {
    StripCharacterization("", Strip(s), "");
    assert "" + Strip(s) + "" == Strip(s);
  }

  lemma AllSpaceConcat(a: string, b: string)
    requires AllSpace(a) && AllSpace(b)
    ensures AllSpace(a + b)
  {
    forall i | 0 <= i < |a + b| ensures IsSpace((a + b)[i]) {
      if i < |a| { assert (a + b)[i] == a[i]; } else { assert (a + b)[i] == b[i - |a|]; }
    }
  }

  /** Surrounding an answer with whitespace does not change what `strip` keeps. */
  lemma StripPadding(p: string, s: string, q: string)
    requires AllSpace(p) && AllSpace(q)
    ensures Strip(p + s + q) == Strip(s)
  {
    StripDecompose(s);
    var a := LeadingSpace(s);
    var m := Strip(s);
    var front := s[..a];
    var back := s[a + |m|..];
    AllSpaceConcat(p, front);
    AllSpaceConcat(back, q);
    Regroup(p, front, m, back, q);
    StripCharacterization(p + front, m, back + q);
  }

  lemma Regroup(p: string, f: string, m: string, b: string, q: string)
    ensures p + (f + m + b) + q == (p + f) + m + (b + q)
  {
  }

  // ---------------------------------------------------------------- lower

  /** `c.lower()` on the ASCII letters. */
  function LowerChar(c: char): (d: char)
    ensures IsSpace(d) == IsSpace(c)
    ensures 'A' <= c <= 'Z' ==> d as int == c as int + 32
    ensures !('A' <= c <= 'Z') ==> d == c
  {
    if 'A' <= c <= 'Z' then (c as int + 32) as char else c
  }

  /** `s.lower()`, character by character. */
  function Lower(s: string): (r: string)
    ensures |r| == |s|
    ensures forall i :: 0 <= i < |s| ==> r[i] == LowerChar(s[i])
  {
    seq(|s|, i requires 0 <= i < |s| => LowerChar(s[i]))
  }

  /** Every character `Strip` keeps is a character of its argument. */
  lemma StripChars(s: string, c: char)
    requires c in Strip(s)
    ensures c in s
  {
    StripDecompose(s);
    var a := LeadingSpace(s);
    var i :| 0 <= i < |Strip(s)| && Strip(s)[i] == c;
    assert s[a + i] == c;
  }

  lemma LowerIdempotent(s: string)
    ensures Lower(Lower(s)) == Lower(s)
  {
  }

  lemma LowerAppend(a: string, b: string)
    ensures Lower(a + b) == Lower(a) + Lower(b)
  {
  }

  /** Lower-casing and stripping commute, because lower-casing never turns a
      whitespace character into a visible one or back. */
  lemma LowerStrip(s: string)
    ensures Lower(Strip(s)) == Strip(Lower(s))
  {
    StripDecompose(s);
    var a := LeadingSpace(s);
    var m := Strip(s);
    var p, q := s[..a], s[a + |m|..];
    LowerThree(p, m, q);
    StripCharacterization(Lower(p), Lower(m), Lower(q));
  }

  lemma LowerThree(p: string, m: string, q: string)
    ensures Lower(p + m + q) == Lower(p) + Lower(m) + Lower(q)
  {
    LowerAppend(p, m);
    LowerAppend(p + m, q);
  }

  // ---------------------------------------------------------------- split()

  /** Length of the run of non-whitespace characters at the front of `s`. */
  function WordLength(s: string): (n: nat)
    ensures n <= |s|
    ensures forall i :: 0 <= i < n ==> !IsSpace(s[i])
    ensures n < |s| ==> IsSpace(s[n])
  {
    if |s| > 0 && !IsSpace(s[0]) then 1 + WordLength(s[1..]) else 0
  }

  /** `s.split()`: the maximal runs of non-whitespace characters, in order. */
  function SplitWhitespace(s: string): (words: seq<string>)
    ensures forall w :: w in words ==> w != "" && NoSpace(w)
    ensures words == [] <==> AllSpace(s)
    decreases |s|
  {
    var a := LeadingSpace(s);
    if a == |s| then []
    else
      var t := s[a..];
      var w := WordLength(t);
      [t[..w]] + SplitWhitespace(t[w..])
  }

  // ---------------------------------------------------------------- split(sep)

  /** Index of the first `c` in `s`, or `|s|` when there is none. */
  function IndexOf(s: string, c: char): (k: nat)
    ensures k <= |s|
    ensures k < |s| ==> s[k] == c
    ensures forall i :: 0 <= i < k ==> s[i] != c
  {
    if |s| == 0 || s[0] == c then 0 else 1 + IndexOf(s[1..], c)
  }

  /** The ensures of `IndexOf` pin its value down. */
  lemma IndexOfIs(s: string, c: char, k: nat)
    requires k <= |s|
    requires k < |s| ==> s[k] == c
    requires forall i :: 0 <= i < k ==> s[i] != c
    ensures IndexOf(s, c) == k
  {
  }

  /** `s.split(sep)` for a one-character separator: at least one piece, none
      holding the separator. */
  function Split(s: string, sep: char): (parts: seq<string>)
    ensures |parts| >= 1
    ensures forall p :: p in parts ==> sep !in p
    decreases |s|
  {
    var k := IndexOf(s, sep);
    if k == |s| then [s] else [s[..k]] + Split(s[k + 1..], sep)
  }

  /** `sep.join(parts)` */
  function Join(parts: seq<string>, sep: char): string
  {
    if |parts| == 0 then ""
    else if |parts| == 1 then parts[0]
    else parts[0] + [sep] + Join(parts[1..], sep)
  }

  /** Splitting and joining on the same separator give back the text. */
  lemma {:induction false} JoinSplit(s: string, sep: char)
    ensures Join(Split(s, sep), sep) == s
    decreases |s|
  {
    var k := IndexOf(s, sep);
    if k < |s| {
      var rest := s[k + 1..];
      JoinSplit(rest, sep);
      SplitAtSeparator(s, sep);
      JoinCons(s[..k], Split(rest, sep), sep);
      SplitInThree(s, k, k + 1);
      assert s[k..k + 1] == [sep];
    } else {
      assert Split(s, sep) == [s];
    }
  }

  lemma SplitAtSeparator(s: string, sep: char)
    requires IndexOf(s, sep) < |s|
    ensures Split(s, sep) == [s[..IndexOf(s, sep)]] + Split(s[IndexOf(s, sep) + 1..], sep)
  {
  }

  lemma JoinCons(first: string, rest: seq<string>, sep: char)
    requires |rest| >= 1
    ensures Join([first] + rest, sep) == first + [sep] + Join(rest, sep)
  {
    assert ([first] + rest)[1..] == rest;
  }

  /** ... and pieces free of the separator survive a join followed by a split. */
  lemma {:induction false} SplitJoin(parts: seq<string>, sep: char)
    requires |parts| >= 1
    requires forall p :: p in parts ==> sep !in p
    ensures Split(Join(parts, sep), sep) == parts
    decreases |parts|
  {
    var s := Join(parts, sep);
    assert parts[0] in parts;
    if |parts| == 1 {
      assert s == parts[0];
      IndexOfIs(s, sep, |s|);
    } else {
      var rest := Join(parts[1..], sep);
      assert s == parts[0] + [sep] + rest;
      SplitJoin(parts[1..], sep);
      assert forall i :: 0 <= i < |parts[0]| ==> s[i] == parts[0][i];
      assert s[|parts[0]|] == sep;
      IndexOfIs(s, sep, |parts[0]|);
      var k := |parts[0]|;
      assert s[..k] == parts[0];
      assert s[k + 1..] == rest;
    }
  }

  // ---------------------------------------------------------------- substrings

  /** `sub` occurs in `s` starting at index `i`. */
  predicate OccursAt(s: string, sub: string, i: nat) {
    i + |sub| <= |s| && s[i..i + |sub|] == sub
  }

  /** `s.find(sub, from)`: the first occurrence at or after `from`. */
  function FindFrom(s: string, sub: string, from: nat): (r: Option<nat>)
    requires from <= |s|
    ensures r.Some? ==> from <= r.value && OccursAt(s, sub, r.value)
    ensures r.Some? ==> forall j :: from <= j < r.value ==> !OccursAt(s, sub, j)
    ensures r.None? ==> forall j :: from <= j <= |s| ==> !OccursAt(s, sub, j)
    decreases |s| - from
  {
    if OccursAt(s, sub, from) then Some(from)
    else if from == |s| then None
    else FindFrom(s, sub, from + 1)
  }

  function Find(s: string, sub: string): Option<nat> {
    FindFrom(s, sub, 0)
  }

  /** `sub in s` */
  predicate Contains(s: string, sub: string) {
    Find(s, sub).Some?
  }

  /** `s.split(sep, 1)` when it has two pieces: the text before and after the
      first occurrence of `sep`; `None` when `sep` does not occur. */
  function SplitFirst(s: string, sep: string): (r: Option<(string, string)>)
    requires sep != ""
    ensures r.Some? ==> s == r.value.0 + sep + r.value.1
    ensures r.Some? ==> forall j :: 0 <= j < |r.value.0| ==> !OccursAt(s, sep, j)
    ensures r.None? ==> forall j :: 0 <= j <= |s| ==> !OccursAt(s, sep, j)
  {
    match Find(s, sep)
    case None => None
    case Some(k) =>
      assert s == s[..k] + s[k..k + |sep|] + s[k + |sep|..];
      Some((s[..k], s[k + |sep|..]))
  }

  /** `SplitFirst` cuts at the first occurrence and nowhere else. */
  lemma SplitFirstIs(s: string, sep: string, before: string, after: string)
    requires sep != ""
    requires s == before + sep + after
    requires forall j :: 0 <= j < |before| ==> !OccursAt(s, sep, j)
    ensures SplitFirst(s, sep) == Some((before, after))
  {
    assert s[|before|..|before| + |sep|] == sep;
    assert OccursAt(s, sep, |before|);
    var k := Find(s, sep).value;
    assert k == |before|;
    assert s[..k] == before;
    assert s[k + |sep|..] == after;
  }

  /** `s.replace(pattern, replacement)`: every non-overlapping occurrence, left to right. */
  function ReplaceAll(s: string, pattern: string, replacement: string): (r: string)
    requires pattern != ""
    ensures (forall j :: 0 <= j <= |s| ==> !OccursAt(s, pattern, j)) ==> r == s
    decreases |s|
  {
    match Find(s, pattern)
    case None => s
    case Some(k) => s[..k] + replacement + ReplaceAll(s[k + |pattern|..], pattern, replacement)
  }

  /** `re.sub(r'\s+', '', s)`: `s` with every whitespace character deleted. */
  function RemoveSpace(s: string): (r: string)
    ensures NoSpace(r) && |r| <= |s|
  {
    if s == "" then ""
    else (if IsSpace(s[0]) then "" else [s[0]]) + RemoveSpace(s[1..])
  }

  lemma {:induction false} RemoveSpaceAppend(a: string, b: string)
    ensures RemoveSpace(a + b) == RemoveSpace(a) + RemoveSpace(b)
    decreases |a|
  {
    if a != "" {
      assert (a + b)[0] == a[0];
      assert (a + b)[1..] == a[1..] + b;
      RemoveSpaceAppend(a[1..], b);
    } else {
      assert a + b == b;
    }
  }

  /** Deleting whitespace keeps exactly the visible characters, in order:
      a whitespace-only text leaves nothing, and a text without
      whitespace is left as it is. */
  lemma {:induction false} RemoveSpaceFixed(s: string)
    ensures AllSpace(s) ==> RemoveSpace(s) == ""
    ensures NoSpace(s) ==> RemoveSpace(s) == s
    decreases |s|
  {
    if s != "" {
      RemoveSpaceFixed(s[1..]);
    }
  }

  /** Deleting whitespace leaves nothing exactly when the text is all whitespace. */
  lemma {:induction false} RemoveSpaceEmpty(s: string)
    ensures RemoveSpace(s) == "" <==> AllSpace(s)
    decreases |s|
  {
    if s != "" {
      RemoveSpaceEmpty(s[1..]);
      assert AllSpace(s) <==> IsSpace(s[0]) && AllSpace(s[1..]);
    }
  }

  // ---------------------------------------------------------------- integers

  predicate IsDigit(c: char) {
    '0' <= c <= '9'
  }

  predicate AllDigits(s: string) {
    forall i :: 0 <= i < |s| ==> IsDigit(s[i])
  }

  function DigitChar(d: nat): (c: char)
    requires d < 10
    ensures IsDigit(c) && c as int - '0' as int == d
  {
    ('0' as int + d) as char
  }

  /** `str(n)` for a natural number: its decimal digits, most significant first. */
  function NatToString(n: nat): (s: string)
    ensures |s| >= 1 && AllDigits(s)
    decreases n
  {
    if n < 10 then [DigitChar(n)] else NatToString(n / 10) + [DigitChar(n % 10)]
  }

  /** The number a non-empty run of decimal digits denotes. */
  function DigitsValue(s: string): nat
    requires AllDigits(s)
  {
    if s == "" then 0
    else DigitsValue(s[..|s| - 1]) * 10 + (s[|s| - 1] as int - '0' as int)
  }

  /** `int(s)` for a text that is already stripped: an optional sign followed
      by decimal digits; anything else is the `ValueError` path, `None`. */
  function ParseInt(s: string): Option<int> {
    if |s| > 0 && (s[0] == '+' || s[0] == '-') then
      var digits := s[1..];
      if digits != "" && AllDigits(digits) then
        var v: int := DigitsValue(digits);
        Some(if s[0] == '-' then -v else v)
      else None
    else if s != "" && AllDigits(s) then Some(DigitsValue(s))
    else None
  }

  lemma {:induction false} DigitsValueOfNatToString(n: nat)
    ensures DigitsValue(NatToString(n)) == n
    decreases n
  {
    if n >= 10 {
      DigitsValueOfNatToString(n / 10);
      var s := NatToString(n);
      assert s[..|s| - 1] == NatToString(n / 10);
    }
  }

  /** `int(str(n)) == n` and `int("-" + str(n)) == -n`. */
  lemma ParseIntOfNatToString(n: nat)
    ensures ParseInt(NatToString(n)) == Some(n)
    ensures ParseInt("-" + NatToString(n)) == Some(-(n as int))
  {
    DigitsValueOfNatToString(n);
    var s := NatToString(n);
    assert ("-" + s)[1..] == s;
  }

  /** `str(i)` for any integer. */
  function IntToString(i: int): (s: string)
    ensures |s| >= 1
  {
    if i < 0 then "-" + NatToString(-i) else NatToString(i)
  }

  /** `int(str(i)) == i` */
  lemma IntToStringRoundTrip(i: int)
    ensures ParseInt(IntToString(i)) == Some(i)
  {
    if i < 0 {
      ParseIntOfNatToString(-i);
    } else {
      ParseIntOfNatToString(i);
    }
  }

  /** Distinct numbers have distinct decimal renderings. */
  lemma NatToStringInjective(a: nat, b: nat)
    requires NatToString(a) == NatToString(b)
    ensures a == b
  {
    DigitsValueOfNatToString(a);
    DigitsValueOfNatToString(b);
  }

  /** `items[:n]`: at most the first `n` items. */
  function Take<T>(items: seq<T>, n: nat): (r: seq<T>)
    ensures |r| <= n && r <= items
    ensures |items| <= n ==> r == items
    ensures |items| >= n ==> |r| == n
  {
    if |items| <= n then items else items[..n]
  }
}
