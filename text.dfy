/** String helpers with JavaScript's meaning: `\s`, `\d`, `toLowerCase` (ASCII part),
    `includes`, `trim`, decimal rendering of integers, `join` and `split` on one character. */
module Text {
  import opened Wrappers

  /** JavaScript's `\s` class (white space and line terminators), also what `trim` removes. */
  predicate IsSpace(c: char)
  {
    c == ' ' || c == '\t' || c == '\n' || c == '\r' || c == '\U{000B}' || c == '\U{000C}' ||
    c == '\U{00A0}' || c == '\U{1680}' || ('\U{2000}' <= c <= '\U{200A}') ||
    c == '\U{2028}' || c == '\U{2029}' || c == '\U{202F}' || c == '\U{205F}' ||
    c == '\U{3000}' || c == '\U{FEFF}'
  }

  /** JavaScript's `\d`. */
  predicate IsDigit(c: char)
  {
    '0' <= c <= '9'
  }

  predicate AllDigits(s: string)
  {
    forall i :: 0 <= i < |s| ==> IsDigit(s[i])
  }

  predicate NoSpaces(s: string)
  {
    forall i :: 0 <= i < |s| ==> !IsSpace(s[i])
  }

  /** `toLowerCase` on one character; only ASCII letters are folded. */
  function LowerChar(c: char): char
  {
    if 'A' <= c <= 'Z' then (c as int + 32) as char else c
  }

  function Lower(s: string): string
  {
    seq(|s|, i requires 0 <= i < |s| => LowerChar(s[i]))
  }

  lemma LowerIdempotent(s: string)
    ensures Lower(Lower(s)) == Lower(s)
  {
  }

  lemma LowerAppend(a: string, b: string)
    ensures Lower(a + b) == Lower(a) + Lower(b)
  {
  }

  /** `t` occurs in `s` starting at index `i`. */
  predicate OccursAt(s: string, t: string, i: nat)
  {
    i + |t| <= |s| && s[i..i + |t|] == t
  }

  /** `s.includes(t)`. */
  predicate Contains(s: string, t: string)
  {
    exists i: nat :: i <= |s| && OccursAt(s, t, i)
  }

  /** `s.toLowerCase().includes(t.toLowerCase())`. */
  predicate ContainsCI(s: string, t: string)
  {
    Contains(Lower(s), Lower(t))
  }

  lemma ContainsEmpty(s: string)
    ensures Contains(s, "")
  {
    assert OccursAt(s, "", 0);
  }

  lemma ContainsSelf(s: string)
    ensures Contains(s, s)
  {
    assert OccursAt(s, s, 0);
  }

  /** If `t` contains `u`, everything containing `t` contains `u`. */
  lemma ContainsTrans(s: string, t: string, u: string)
    requires Contains(s, t) && Contains(t, u)
    ensures Contains(s, u)
  {
    var i: nat :| i <= |s| && OccursAt(s, t, i);
    var j: nat :| j <= |t| && OccursAt(t, u, j);
    assert t == s[i..i + |t|];
    assert forall k :: 0 <= k < |u| ==> s[i + j + k] == t[j + k] == u[k];
    assert OccursAt(s, u, i + j);
  }

  /** Case-insensitive search ignores the case of both the text and the term. */
  lemma ContainsCIIgnoresCase(s: string, t: string)
    ensures ContainsCI(Lower(s), t) == ContainsCI(s, t)
    ensures ContainsCI(s, Lower(t)) == ContainsCI(s, t)
  {
    LowerIdempotent(s);
    LowerIdempotent(t);
  }

  /** A JavaScript-truthy optional text: present and not empty. */
  predicate Given(field: Option<string>)
  {
    field.Some? && field.value != ""
  }

  /** `field && field.toLowerCase().includes(term)`: a present, non-empty field whose
      lower-cased text contains `term`. */
  predicate FieldHas(field: Option<string>, term: string)
  {
    Given(field) && Contains(Lower(field.value), term)
  }

  // ---------- white space removal and trimming ----------

  /** `s.replace(/\s/g, '')`. */
  function RemoveSpaces(s: string): (r: string)
    ensures NoSpaces(r)
  {
    if s == [] then []
    else if IsSpace(s[0]) then RemoveSpaces(s[1..])
    else [s[0]] + RemoveSpaces(s[1..])
  }

  lemma {:induction false} RemoveSpacesAppend(a: string, b: string)
    ensures RemoveSpaces(a + b) == RemoveSpaces(a) + RemoveSpaces(b)
    decreases |a|
  {
    if a == [] {
      assert a + b == b;
    } else {
      assert (a + b)[0] == a[0];
      assert (a + b)[1..] == a[1..] + b;
      RemoveSpacesAppend(a[1..], b);
    }
  }

  lemma {:induction false} RemoveSpacesNoop(s: string)
    requires NoSpaces(s)
    ensures RemoveSpaces(s) == s
    decreases |s|
  {
    if s != [] {
      RemoveSpacesNoop(s[1..]);
    }
  }

  function TrimStart(s: string): string
  {
    if s != [] && IsSpace(s[0]) then TrimStart(s[1..]) else s
  }

  function TrimEnd(s: string): string
  {
    if s != [] && IsSpace(s[|s| - 1]) then TrimEnd(s[..|s| - 1]) else s
  }

  /** `s.trim()`. */
  function Trim(s: string): string
  {
    TrimEnd(TrimStart(s))
  }

  lemma {:induction false} RemoveSpacesTrimStart(s: string)
    ensures RemoveSpaces(TrimStart(s)) == RemoveSpaces(s)
    decreases |s|
  {
    if s != [] && IsSpace(s[0]) {
      RemoveSpacesTrimStart(s[1..]);
    }
  }

  lemma {:induction false} RemoveSpacesTrimEnd(s: string)
    ensures RemoveSpaces(TrimEnd(s)) == RemoveSpaces(s)
    decreases |s|
  {
    if s != [] && IsSpace(s[|s| - 1]) {
      var init := s[..|s| - 1];
      RemoveSpacesTrimEnd(init);
      assert s == init + [s[|s| - 1]];
      RemoveSpacesAppend(init, [s[|s| - 1]]);
    }
  }

  /** Trimming only removes white space. */
  lemma RemoveSpacesTrim(s: string)
    ensures RemoveSpaces(Trim(s)) == RemoveSpaces(s)
  {
    RemoveSpacesTrimEnd(TrimStart(s));
    RemoveSpacesTrimStart(s);
  }

  // ---------- decimal numbers ----------

  function DigitChar(d: nat): (c: char)
    requires d < 10
    ensures IsDigit(c)
  {
    ('0' as int + d) as char
  }

  function DigitValue(c: char): (d: nat)
    requires IsDigit(c)
    ensures d < 10
  {
    c as int - '0' as int
  }

  /** `String(n)` / template-literal rendering of a non-negative integer. */
  function NatToString(n: nat): (r: string)
    ensures |r| >= 1 && AllDigits(r)
    decreases n
  {
    if n < 10 then [DigitChar(n)] else NatToString(n / 10) + [DigitChar(n % 10)]
  }

  /** The value of a string of decimal digits (most significant first). */
  function DigitsValue(s: string): nat
    requires AllDigits(s)
    decreases |s|
  {
    if s == [] then 0 else DigitsValue(s[..|s| - 1]) * 10 + DigitValue(s[|s| - 1])
  }

  /** Reading back a rendered number gives the number. */
  lemma {:induction false} DigitsValueOfNatToString(n: nat)
    ensures DigitsValue(NatToString(n)) == n
    decreases n
  {
    var s := NatToString(n);
    if n >= 10 {
      DigitsValueOfNatToString(n / 10);
      assert s[..|s| - 1] == NatToString(n / 10);
    }
  }

  lemma NatToStringInjective(m: nat, n: nat)
    requires NatToString(m) == NatToString(n)
    ensures m == n
  {
    DigitsValueOfNatToString(m);
    DigitsValueOfNatToString(n);
  }

  // ---------- join and split on one character ----------

  /** `parts.join(sep)`. */
  function Join(parts: seq<string>, sep: char): string
    decreases |parts|
  {
    if |parts| == 0 then ""
    else if |parts| == 1 then parts[0]
    else parts[0] + [sep] + Join(parts[1..], sep)
  }

  /** The first index of `c` in `s`. */
  function IndexOf(s: string, c: char): (r: nat)
    requires c in s
    ensures r < |s| && s[r] == c
    ensures forall j :: 0 <= j < r ==> s[j] != c
  {
    if s[0] == c then 0 else 1 + IndexOf(s[1..], c)
  }

  /** `s.split(sep)` for a one-character separator. */
  function SplitOn(s: string, sep: char): (r: seq<string>)
    ensures |r| >= 1
    decreases |s|
  {
    if sep !in s then [s]
    else
      var i := IndexOf(s, sep);
      [s[..i]] + SplitOn(s[i + 1..], sep)
  }

  /** Splitting a join recovers the parts when no part holds the separator. */
  lemma {:induction false} SplitJoin(parts: seq<string>, sep: char)
    requires |parts| >= 1
    requires forall k :: 0 <= k < |parts| ==> sep !in parts[k]
    ensures SplitOn(Join(parts, sep), sep) == parts
    decreases |parts|
  {
    if |parts| > 1 {
      var p := parts[0];
      var rest := Join(parts[1..], sep);
      var s := Join(parts, sep);
      assert s == p + [sep] + rest;
      assert s[|p|] == sep;
      assert s[..|p|] == p;
      var i := IndexOf(s, sep);
      assert i == |p|;
      assert s[..i] == p;
      assert s[i + 1..] == rest;
      SplitJoin(parts[1..], sep);
    }
  }
}
