/** The Python string operations the services rely on: whitespace, strip, join, case
    folding of ASCII letters, prefix and suffix tests, and `str(n)` for naturals. */
module Text {

  /** Python's `str.isspace()`; a `\s` in a `str` pattern matches exactly these characters. */
  predicate IsSpace(c: char) {
    ('\t' <= c <= '\r') || ('\U{1C}' <= c <= '\U{1F}') || c == ' ' || c == '\U{85}' || c == '\U{A0}'
    || c == '\U{1680}' || ('\U{2000}' <= c <= '\U{200A}') || c == '\U{2028}' || c == '\U{2029}'
    || c == '\U{202F}' || c == '\U{205F}' || c == '\U{3000}'
  }

  predicate NoSpaceAtEnds(s: string) {
    s == [] || (!IsSpace(s[0]) && !IsSpace(s[|s| - 1]))
  }

  /** `s.lstrip()`: the suffix of `s` after its leading whitespace. */
  function TrimLeft(s: string): (r: string)
    ensures |r| <= |s|
    ensures r == [] || !IsSpace(r[0])
  {
    if |s| > 0 && IsSpace(s[0]) then TrimLeft(s[1..]) else s
  }

  /** `s.lstrip()` is a suffix of `s`. */
  lemma {:induction false} TrimLeftSuffix(s: string)
    ensures TrimLeft(s) == s[|s| - |TrimLeft(s)|..]
  {
    if |s| > 0 && IsSpace(s[0]) {
      TrimLeftSuffix(s[1..]);
    }
  }

  /** What `lstrip` removes is whitespace, and it empties exactly the all-whitespace strings. */
  lemma {:induction false} TrimLeftRemovesSpaces(s: string)
    ensures forall i :: 0 <= i < |s| - |TrimLeft(s)| ==> IsSpace(s[i])
    ensures TrimLeft(s) == [] <==> forall i :: 0 <= i < |s| ==> IsSpace(s[i])
  {
    if |s| > 0 && IsSpace(s[0]) {
      TrimLeftRemovesSpaces(s[1..]);
      assert forall i :: 1 <= i < |s| ==> s[i] == s[1..][i - 1];
    }
  }

  /** `s.rstrip()`: the prefix of `s` before its trailing whitespace. */
  function TrimRight(s: string): (r: string)
    ensures |r| <= |s|
    ensures r == [] || !IsSpace(r[|r| - 1])
  {
    if |s| > 0 && IsSpace(s[|s| - 1]) then TrimRight(s[..|s| - 1]) else s
  }

  /** `s.rstrip()` is a prefix of `s`. */
  lemma {:induction false} TrimRightPrefix(s: string)
    ensures TrimRight(s) == s[..|TrimRight(s)|]
  {
    if |s| > 0 && IsSpace(s[|s| - 1]) {
      TrimRightPrefix(s[..|s| - 1]);
    }
  }

  /** What `rstrip` removes is whitespace, and it empties exactly the all-whitespace strings. */
  lemma {:induction false} TrimRightRemovesSpaces(s: string)
    ensures forall i :: |TrimRight(s)| <= i < |s| ==> IsSpace(s[i])
    ensures TrimRight(s) == [] <==> forall i :: 0 <= i < |s| ==> IsSpace(s[i])
  {
    if |s| > 0 && IsSpace(s[|s| - 1]) {
      TrimRightRemovesSpaces(s[..|s| - 1]);
    }
  }

  /** `s.strip()`. */
  function Strip(s: string): (r: string)
    ensures NoSpaceAtEnds(r)
    ensures |r| <= |s|
  {
    var l := TrimLeft(s);
    var r := TrimRight(l);
    TrimRightPrefix(l);
    assert r != [] ==> r[0] == l[0];
    r
  }

  /** Where `s.strip()` starts inside `s`. */
  function StripOffset(s: string): nat {
    |s| - |TrimLeft(s)|
  }

  /** The `i`-th character of `s.strip()` is the character of `s` at the same place. */
  lemma StripAt(s: string, i: nat)
    requires i < |Strip(s)|
    ensures StripOffset(s) + i < |s| && Strip(s)[i] == s[StripOffset(s) + i]
  {
    var l := TrimLeft(s);
    TrimLeftSuffix(s);
    TrimRightPrefix(l);
    assert Strip(s)[i] == l[i];
  }

  /** Every whitespace character of `s` is a blank. */
  predicate OnlyBlanks(s: string) {
    forall i :: 0 <= i < |s| && IsSpace(s[i]) ==> s[i] == ' '
  }

  lemma StripKeepsOnlyBlanks(s: string)
    requires OnlyBlanks(s)
    ensures OnlyBlanks(Strip(s))
  {
    forall i | 0 <= i < |Strip(s)| && IsSpace(Strip(s)[i]) ensures Strip(s)[i] == ' ' {
      StripAt(s, i);
    }
  }

  /** `s.strip()` is empty exactly when every character of `s` is whitespace. */
  lemma StripEmptyIff(s: string)
    ensures Strip(s) == [] <==> forall i :: 0 <= i < |s| ==> IsSpace(s[i])
  {
    var l := TrimLeft(s);
    TrimLeftRemovesSpaces(s);
    TrimRightRemovesSpaces(l);
    assert l != [] ==> !IsSpace(l[0]);
  }

  /** Stripping leaves a string without outer whitespace unchanged, so `strip` is idempotent. */
  lemma StripNoOp(s: string)
    requires NoSpaceAtEnds(s)
    ensures Strip(s) == s
  {
  }

  /** `re.sub(r'\s+', ' ', s)`: every maximal run of whitespace becomes one blank. */
  function CollapseSpaces(s: string): (r: string)
    ensures OnlyBlanks(r)
    ensures forall i, j :: 0 <= i && j == i + 1 && j < |r| ==> !(IsSpace(r[i]) && IsSpace(r[j]))
    ensures r == [] <==> s == []
    ensures r != [] ==> (IsSpace(r[0]) <==> IsSpace(s[0]))
    decreases |s|
  {
    if s == [] then []
    else if IsSpace(s[0]) then [' '] + CollapseSpaces(TrimLeft(s[1..]))
    else [s[0]] + CollapseSpaces(s[1..])
  }

  /** The characters of `s` that are not whitespace, in order. */
  function NonSpace(s: string): string {
    if s == [] then [] else (if IsSpace(s[0]) then [] else [s[0]]) + NonSpace(s[1..])
  }

  lemma {:induction false} NonSpaceAppend(a: string, b: string)
    ensures NonSpace(a + b) == NonSpace(a) + NonSpace(b)
  {
    if a == [] {
      assert a + b == b;
    } else {
      assert (a + b)[0] == a[0] && (a + b)[1..] == a[1..] + b;
      NonSpaceAppend(a[1..], b);
      AppendAssoc(if IsSpace(a[0]) then [] else [a[0]], NonSpace(a[1..]), NonSpace(b));
    }
  }

  lemma {:induction false} NonSpaceOfSpaces(s: string)
    requires forall i :: 0 <= i < |s| ==> IsSpace(s[i])
    ensures NonSpace(s) == []
  {
    if s != [] {
      assert forall i :: 0 <= i < |s[1..]| ==> s[1..][i] == s[i + 1];
      NonSpaceOfSpaces(s[1..]);
    }
  }

  /** `lstrip` removes no character that is not whitespace. */
  lemma TrimLeftNonSpace(s: string)
    ensures NonSpace(TrimLeft(s)) == NonSpace(s)
  {
    TrimLeftSuffix(s);
    TrimLeftRemovesSpaces(s);
    var k := |s| - |TrimLeft(s)|;
    assert s == s[..k] + TrimLeft(s);
    NonSpaceAppend(s[..k], TrimLeft(s));
    NonSpaceOfSpaces(s[..k]);
  }

  /** `rstrip` removes no character that is not whitespace. */
  lemma TrimRightNonSpace(s: string)
    ensures NonSpace(TrimRight(s)) == NonSpace(s)
  {
    TrimRightPrefix(s);
    TrimRightRemovesSpaces(s);
    var k := |TrimRight(s)|;
    assert s == TrimRight(s) + s[k..];
    NonSpaceAppend(TrimRight(s), s[k..]);
    assert forall i :: 0 <= i < |s[k..]| ==> s[k..][i] == s[k + i];
    NonSpaceOfSpaces(s[k..]);
  }

  /** `strip` keeps every character that is not whitespace, in order. */
  lemma StripNonSpace(s: string)
    ensures NonSpace(Strip(s)) == NonSpace(s)
  {
    TrimLeftNonSpace(s);
    TrimRightNonSpace(TrimLeft(s));
  }

  /** Collapsing whitespace keeps every character that is not whitespace, in order. */
  lemma {:induction false} CollapseSpacesNonSpace(s: string)
    ensures NonSpace(CollapseSpaces(s)) == NonSpace(s)
    decreases |s|
  {
    if s != [] {
      var rest := if IsSpace(s[0]) then TrimLeft(s[1..]) else s[1..];
      var head := if IsSpace(s[0]) then ' ' else s[0];
      assert CollapseSpaces(s) == [head] + CollapseSpaces(rest);
      CollapseSpacesNonSpace(rest);
      NonSpaceAppend([head], CollapseSpaces(rest));
      assert [head][1..] == [];
      if IsSpace(s[0]) {
        TrimLeftNonSpace(s[1..]);
      }
    }
  }

  /** The stripped, non-empty pieces, in order (`sent.strip()` / `if not sent: continue`). */
  function Tidy(pieces: seq<string>): seq<string> {
    if pieces == [] then []
    else (if Strip(pieces[0]) == [] then [] else [Strip(pieces[0])]) + Tidy(pieces[1..])
  }

  lemma TidyCons(x: string, rest: seq<string>, later: seq<string>)
    ensures Tidy([x] + rest) + later == (if Strip(x) == [] then [] else [Strip(x)]) + (Tidy(rest) + later)
  {
    assert ([x] + rest)[1..] == rest;
  }

  /** A unit: non-empty and without outer whitespace. */
  predicate IsUnit(u: string) {
    u != [] && NoSpaceAtEnds(u)
  }

  lemma {:induction false} TidyUnits(pieces: seq<string>)
    ensures forall u :: u in Tidy(pieces) ==> IsUnit(u)
  {
    if pieces != [] {
      TidyUnits(pieces[1..]);
    }
  }

  /** Concatenation of a sequence of sequences; on strings, `''.join(parts)`. */
  function Flatten<T>(xss: seq<seq<T>>): seq<T> {
    if xss == [] then [] else xss[0] + Flatten(xss[1..])
  }

  lemma AppendAssoc<T>(a: seq<T>, b: seq<T>, c: seq<T>)
    ensures (a + b) + c == a + (b + c)
  {
  }

  lemma FlattenCons<T>(x: seq<T>, rest: seq<seq<T>>)
    ensures Flatten([x] + rest) == x + Flatten(rest)
  {
    assert ([x] + rest)[1..] == rest;
  }

  lemma {:induction false} FlattenAppend<T>(a: seq<seq<T>>, b: seq<seq<T>>)
    ensures Flatten(a + b) == Flatten(a) + Flatten(b)
  {
    if a != [] {
      assert (a + b)[1..] == a[1..] + b;
      FlattenAppend(a[1..], b);
    } else {
      assert a + b == b;
    }
  }

  /** Sum of the lengths of the parts. */
  function SumLen(parts: seq<string>): nat {
    if parts == [] then 0 else |parts[0]| + SumLen(parts[1..])
  }

  /** `sep.join(parts)`. */
  function Join(parts: seq<string>, sep: string): string {
    if |parts| == 0 then ""
    else if |parts| == 1 then parts[0]
    else parts[0] + sep + Join(parts[1..], sep)
  }

  lemma {:induction false} JoinLength(parts: seq<string>, sep: string)
    requires parts != []
    ensures |Join(parts, sep)| == SumLen(parts) + (|parts| - 1) * |sep|
  {
    if |parts| > 1 {
      JoinLength(parts[1..], sep);
    }
  }

  lemma {:induction false} SumLenAppend(a: seq<string>, b: seq<string>)
    ensures SumLen(a + b) == SumLen(a) + SumLen(b)
  {
    if a != [] {
      assert (a + b)[1..] == a[1..] + b;
      SumLenAppend(a[1..], b);
    } else {
      assert a + b == b;
    }
  }

  function Digit(d: nat): (c: char)
    requires d < 10
    ensures '0' <= c <= '9' && (c as int) - ('0' as int) == d
  {
    ((('0' as int) + d) as char)
  }

  /** `str(n)` for a natural number: its decimal digits, most significant first. */
  function NatToString(n: nat): (s: string)
    ensures |s| >= 1
    ensures forall i :: 0 <= i < |s| ==> '0' <= s[i] <= '9'
    ensures n < 10 <==> |s| == 1
  {
    if n < 10 then [Digit(n)] else NatToString(n / 10) + [Digit(n % 10)]
  }

  /** The value of a string of decimal digits (what `int(s)` gives). */
  function DigitsValue(s: string): nat
    requires forall i :: 0 <= i < |s| ==> '0' <= s[i] <= '9'
  {
    if s == [] then 0 else DigitsValue(s[..|s| - 1]) * 10 + ((s[|s| - 1] as int) - ('0' as int))
  }

  /** `int(str(n)) == n`. */
  lemma {:induction false} NatToStringRoundTrip(n: nat)
    ensures DigitsValue(NatToString(n)) == n
  {
    var s := NatToString(n);
    if n >= 10 {
      assert s[..|s| - 1] == NatToString(n / 10);
      NatToStringRoundTrip(n / 10);
    }
  }

  /** Distinct numbers have distinct decimal strings. */
  lemma NatToStringInjective(m: nat, n: nat)
    requires NatToString(m) == NatToString(n)
    ensures m == n
  {
    NatToStringRoundTrip(m);
    NatToStringRoundTrip(n);
  }

  function LowerChar(c: char): char {
    if 'A' <= c <= 'Z' then (c as int + 32) as char else c
  }

  function UpperChar(c: char): char {
    if 'a' <= c <= 'z' then (c as int - 32) as char else c
  }

  /** `s.lower()` on ASCII letters. */
  function Lower(s: string): (r: string)
    ensures |r| == |s| && forall i :: 0 <= i < |s| ==> r[i] == LowerChar(s[i])
    ensures forall i :: 0 <= i < |r| ==> !('A' <= r[i] <= 'Z')
    ensures forall i :: 0 <= i < |s| && !('A' <= s[i] <= 'Z') ==> r[i] == s[i]
  {
    seq(|s|, i requires 0 <= i < |s| => LowerChar(s[i]))
  }

  /** A text without capital letters is its own lower-case form. */
  lemma LowerNoOp(s: string)
    requires forall i :: 0 <= i < |s| ==> !('A' <= s[i] <= 'Z')
    ensures Lower(s) == s
  {
  }

  /** Lower-casing twice is lower-casing once. */
  lemma LowerIdempotent(s: string)
    ensures Lower(Lower(s)) == Lower(s)
  {
  }

  /** `s.upper()` on ASCII letters. */
  function Upper(s: string): (r: string)
    ensures |r| == |s| && forall i :: 0 <= i < |s| ==> r[i] == UpperChar(s[i])
    ensures forall i :: 0 <= i < |r| ==> !('a' <= r[i] <= 'z')
    ensures forall i :: 0 <= i < |s| && !('a' <= s[i] <= 'z') ==> r[i] == s[i]
  {
    seq(|s|, i requires 0 <= i < |s| => UpperChar(s[i]))
  }

  /** Upper-casing twice is upper-casing once. */
  lemma UpperIdempotent(s: string)
    ensures Upper(Upper(s)) == Upper(s)
  {
  }

  predicate StartsWith(s: string, prefix: string) {
    |prefix| <= |s| && s[..|prefix|] == prefix
  }

  predicate EndsWith(s: string, suffix: string) {
    |suffix| <= |s| && s[|s| - |suffix|..] == suffix
  }

  lemma EndsWithItself(s: string, suffix: string)
    ensures EndsWith(s + suffix, suffix)
  {
    assert (s + suffix)[|s|..] == suffix;
  }

  /** A non-empty sequence is its front followed by its last element. */
  lemma SplitLast<T>(s: seq<T>)
    requires s != []
    ensures s == s[..|s| - 1] + [s[|s| - 1]]
  {
  }
}
