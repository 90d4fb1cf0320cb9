/**
 * The JavaScript string built-ins the application relies on, over `string`
 * (a sequence of Unicode scalar values): `trim`, `toLowerCase` (ASCII part),
 * `includes`, `startsWith`, `split`, `replace(/c/g, '')`, `parseInt` and
 * number-to-string conversion.
 */
module Strings {

  datatype Option<+T> = None | Some(value: T)

  /** The characters JavaScript's `trim` and the regex class `\s` treat as white space. */
  predicate IsWhite(c: char) {
    c == ' ' || c == '\t' || c == '\n' || c == '\r' || c == '\U{B}' || c == '\U{C}'
    || c == '\U{A0}' || c == '\U{1680}' || ('\U{2000}' <= c <= '\U{200A}')
    || c == '\U{2028}' || c == '\U{2029}' || c == '\U{202F}' || c == '\U{205F}'
    || c == '\U{3000}' || c == '\U{FEFF}'
  }

  predicate IsDigit(c: char) {
    '0' <= c <= '9'
  }

  function DigitValue(c: char): (d: nat)
    requires IsDigit(c)
    ensures d < 10
  {
    c as int - '0' as int
  }

  function DigitChar(d: nat): (c: char)
    requires d < 10
    ensures IsDigit(c) && DigitValue(c) == d
  {
    (d + '0' as int) as char
  }

  /** `s.trimStart()`: drops leading white space. */
  function TrimStart(s: string): (r: string)
    ensures |r| <= |s| && r == s[|s| - |r|..]
    ensures forall i :: 0 <= i < |s| - |r| ==> IsWhite(s[i])
    ensures r == [] || !IsWhite(r[0])
  {
    if |s| > 0 && IsWhite(s[0]) then
      var r := TrimStart(s[1..]);
      assert s[1..][|s| - 1 - |r|..] == s[|s| - |r|..];
      assert forall i :: 1 <= i < |s| - |r| ==> s[i] == s[1..][i - 1];
      r
    else s
  }

  /** `s.trimEnd()`: drops trailing white space. */
  function TrimEnd(s: string): (r: string)
    ensures |r| <= |s| && r == s[..|r|]
    ensures forall i :: |r| <= i < |s| ==> IsWhite(s[i])
    ensures r == [] || !IsWhite(r[|r| - 1])
  {
    if |s| > 0 && IsWhite(s[|s| - 1]) then
      var r := TrimEnd(s[..|s| - 1]);
      assert s[..|s| - 1][..|r|] == s[..|r|];
      assert forall i :: |r| <= i < |s| - 1 ==> s[i] == s[..|s| - 1][i];
      r
    else s
  }

  /** `s.trim()`. */
  function Trim(s: string): (r: string)
  {
    TrimEnd(TrimStart(s))
  }

  /** A string that `trim` leaves alone: empty, or no white space at either end. */
  predicate IsTrimmed(s: string) {
    s == [] || (!IsWhite(s[0]) && !IsWhite(s[|s| - 1]))
  }

  /** The result of `trim` has no white space at either end. */
  lemma TrimSpec(s: string)
    ensures IsTrimmed(Trim(s))
  {
    var a := TrimStart(s);
    var r := TrimEnd(a);
    if r != [] {
      assert r[0] == a[0];
    }
  }

  /** Trimming a trimmed string is the identity, also when white space is padded around it. */
  lemma TrimPadded(s: string, left: string, right: string)
    requires IsTrimmed(s) && s != []
    requires forall i :: 0 <= i < |left| ==> IsWhite(left[i])
    requires forall i :: 0 <= i < |right| ==> IsWhite(right[i])
    ensures Trim(left + s + right) == s
  {
    Associate(left, s, right);
    TrimStartWhitePrefix(left, s + right);
    TrimEndWhiteSuffix(s, right);
  }

  lemma Associate<T>(a: seq<T>, b: seq<T>, c: seq<T>)
    ensures a + b + c == a + (b + c)
  {
  }

  /** The two parts of a concatenation are its slices at the seam. */
  lemma ConcatSlices(a: string, b: string)
    ensures (a + b)[..|a|] == a && (a + b)[|a|..] == b
  {
  }

  /** A string is its two slices at any cut. */
  lemma DropInto(a: string, b: string, c: string, j: nat)
    requires j <= |b|
    ensures (a + b + c)[|a| + j..] == b[j..] + c
  {
  }

  lemma HeadTail<T>(s: seq<T>)
    requires s != []
    ensures [s[0]] + s[1..] == s
  {
  }

  lemma SplitAt(s: string, k: nat)
    requires k <= |s|
    ensures s[..k] + s[k..] == s
  {
  }

  /** Concatenation regrouped after its first part. */
  lemma AfterFirst(a: string, b: string, c: string, d: string, e: string)
    ensures a + b + c + d + e == a + (b + c + d + e)
  {
  }

  /** Concatenation regrouped around its two middle parts. */
  lemma Regroup(a: string, b: string, c: string, d: string)
    ensures a + b + c + d == a + (b + c) + d
  {
  }


  lemma {:induction false} TrimStartWhitePrefix(left: string, t: string)
    requires forall i :: 0 <= i < |left| ==> IsWhite(left[i])
    requires t != [] && !IsWhite(t[0])
    ensures TrimStart(left + t) == t
  {
    if left != [] {
      assert (left + t)[1..] == left[1..] + t;
      TrimStartWhitePrefix(left[1..], t);
    } else {
      assert left + t == t;
    }
  }

  lemma {:induction false} TrimEndWhiteSuffix(t: string, right: string)
    requires forall i :: 0 <= i < |right| ==> IsWhite(right[i])
    requires t != [] && !IsWhite(t[|t| - 1])
    ensures TrimEnd(t + right) == t
  {
    if right != [] {
      var shorter := right[..|right| - 1];
      assert (t + right)[..|t + right| - 1] == t + shorter;
      TrimEndWhiteSuffix(t, shorter);
    } else {
      assert t + right == t;
    }
  }

  /** `toLowerCase` on one character; only the ASCII letters are mapped. */
  function LowerChar(c: char): char {
    if 'A' <= c <= 'Z' then (c as int - 'A' as int + 'a' as int) as char else c
  }

  /** `s.toLowerCase()` for the ASCII letters. */
  function ToLower(s: string): (r: string)
    ensures |r| == |s|
    ensures forall i :: 0 <= i < |s| ==> r[i] == LowerChar(s[i])
  {
    if s == [] then [] else [LowerChar(s[0])] + ToLower(s[1..])
  }

  lemma ToLowerIdempotent(s: string)
    ensures ToLower(ToLower(s)) == ToLower(s)
  {
  }

  /** `s.startsWith(p)`. */
  predicate StartsWith(s: string, p: string) {
    |p| <= |s| && s[..|p|] == p
  }

  /** `s.includes(sub)`. */
  predicate Contains(s: string, sub: string)
    decreases |s|
  {
    StartsWith(s, sub) || (|s| > 0 && Contains(s[1..], sub))
  }

  /** `sub` occurs in `s` at position `i`. */
  predicate OccursAt(s: string, sub: string, i: int) {
    0 <= i <= |s| - |sub| && s[i..i + |sub|] == sub
  }

  /** `includes` holds exactly when `sub` occurs at some position of `s`. */
  lemma {:induction false} ContainsAt(s: string, sub: string)
    ensures Contains(s, sub) <==> exists i :: OccursAt(s, sub, i)
    decreases |s|
  {
    if StartsWith(s, sub) {
      assert OccursAt(s, sub, 0);
    } else if |s| > 0 {
      ContainsAt(s[1..], sub);
      if Contains(s[1..], sub) {
        var i :| OccursAt(s[1..], sub, i);
        assert s[1..][i..i + |sub|] == s[i + 1..i + 1 + |sub|];
        assert OccursAt(s, sub, i + 1);
      }
      if exists i :: OccursAt(s, sub, i) {
        var i :| OccursAt(s, sub, i);
        assert i != 0;
        assert s[1..][i - 1..i - 1 + |sub|] == s[i..i + |sub|];
        assert OccursAt(s[1..], sub, i - 1);
      }
    } else {
      assert forall i :: !OccursAt(s, sub, i);
    }
  }

  /** `s.replace(/c/g, '')`: every occurrence of `c` removed. */
  function RemoveChar(s: string, c: char): (r: string)
    ensures c !in r
    ensures |r| <= |s|
    ensures forall x :: x != c ==> multiset(r)[x] == multiset(s)[x]
  {
    if s == [] then []
    else if s[0] == c then
      assert s == [s[0]] + s[1..];
      RemoveChar(s[1..], c)
    else
      assert s == [s[0]] + s[1..];
      [s[0]] + RemoveChar(s[1..], c)
  }

  /** `s.split(c)` for a one-character separator: the pieces between separators. */
  function Split(s: string, c: char): (r: seq<string>)
    ensures |r| >= 1
    ensures forall k :: 0 <= k < |r| ==> c !in r[k]
  {
    if s == [] then [""]
    else if s[0] == c then [""] + Split(s[1..], c)
    else
      var rest := Split(s[1..], c);
      [[s[0]] + rest[0]] + rest[1..]
  }

  /** The number of occurrences of `c` in `s`. */
  function Occurrences(s: string, c: char): nat {
    if s == [] then 0 else (if s[0] == c then 1 else 0) + Occurrences(s[1..], c)
  }

  /** `split` yields one more piece than there are separators, and joining the pieces
      with the separator gives the input back. */
  lemma {:induction false} SplitCount(s: string, c: char)
    ensures |Split(s, c)| == Occurrences(s, c) + 1
    ensures Join(Split(s, c), c) == s
  {
    if s != [] {
      SplitCount(s[1..], c);
      var rest := Split(s[1..], c);
      if s[0] == c {
        assert Split(s, c) == [""] + rest;
        JoinCons("", rest, c);
      } else {
        JoinHead(s[0], rest, c);
      }
    }
  }

  /** The separated pieces of `parts` put back together. */
  function Join(parts: seq<string>, c: char): string {
    if parts == [] then ""
    else if |parts| == 1 then parts[0]
    else parts[0] + [c] + Join(parts[1..], c)
  }

  lemma JoinCons(p: string, rest: seq<string>, c: char)
    requires rest != []
    ensures Join([p] + rest, c) == p + [c] + Join(rest, c)
  {
    assert ([p] + rest)[1..] == rest;
  }

  lemma JoinHead(x: char, rest: seq<string>, c: char)
    requires rest != []
    ensures Join([[x] + rest[0]] + rest[1..], c) == [x] + Join(rest, c)
  {
    var ps := [[x] + rest[0]] + rest[1..];
    if |rest| > 1 {
      assert ps[1..] == rest[1..];
    }
  }

  /** `s.split(/\s+/)`: the pieces between maximal runs of white space. */
  function SplitWhite(s: string): (r: seq<string>)
    ensures |r| >= 1
    ensures forall k, i :: 0 <= k < |r| && 0 <= i < |r[k]| ==> !IsWhite(r[k][i])
    decreases |s|
  {
    if s == [] then [""]
    else if IsWhite(s[0]) then [""] + SplitWhite(TrimStart(s))
    else
      var rest := SplitWhite(s[1..]);
      [[s[0]] + rest[0]] + rest[1..]
  }

  /** Decimal text of a natural number, as JavaScript prints it. */
  function NatToString(n: nat): (r: string)
    ensures |r| >= 1
    ensures forall i :: 0 <= i < |r| ==> IsDigit(r[i])
    ensures r[0] == '0' ==> n == 0
  {
    if n < 10 then [DigitChar(n)] else NatToString(n / 10) + [DigitChar(n % 10)]
  }

  /** The value of a sequence of digits in the given base (most significant first). */
  function DigitsValue(d: seq<nat>, base: nat): nat {
    if d == [] then 0 else DigitsValue(d[..|d| - 1], base) * base + d[|d| - 1]
  }

  /** `c` as a digit of base 10 or 16, or `None`. */
  function RadixDigit(c: char, hex: bool): Option<nat> {
    if IsDigit(c) then Some(DigitValue(c))
    else if hex && 'a' <= c <= 'f' then Some(c as int - 'a' as int + 10)
    else if hex && 'A' <= c <= 'F' then Some(c as int - 'A' as int + 10)
    else None
  }

  /** The digits of the longest prefix of `s` made of digits of the base. */
  function LeadingDigits(s: string, hex: bool): (d: seq<nat>)
    ensures |d| <= |s|
    ensures forall i :: 0 <= i < |d| ==> RadixDigit(s[i], hex) == Some(d[i])
    ensures |d| < |s| ==> RadixDigit(s[|d|], hex).None?
  {
    if s != [] && RadixDigit(s[0], hex).Some? then
      var rest := LeadingDigits(s[1..], hex);
      var d := [RadixDigit(s[0], hex).value] + rest;
      assert forall i :: 0 < i < |d| ==> d[i] == rest[i - 1] && s[i] == s[1..][i - 1];
      d
    else []
  }

  /** `parseInt(s)` with no radix: leading white space, an optional sign, an optional
      `0x`/`0X` prefix selecting base 16, then the longest run of digits; `None` is NaN. */
  function ParseInt(s: string): Option<int> {
    var t := TrimStart(s);
    if |t| > 0 && t[0] == '-' then
      match ParseUnsigned(t[1..])
      case None => None
      case Some(v) => Some(-(v as int))
    else if |t| > 0 && t[0] == '+' then ParseUnsigned(t[1..])
    else ParseUnsigned(t)
  }

  /** The magnitude part of `parseInt`, after the sign. */
  function ParseUnsigned(u: string): Option<nat> {
    if |u| >= 2 && u[0] == '0' && (u[1] == 'x' || u[1] == 'X') then DigitRun(u[2..], true)
    else DigitRun(u, false)
  }

  /** The value of the leading digits of `body`, or `None` when there are none. */
  function DigitRun(body: string, hex: bool): Option<nat> {
    var d := LeadingDigits(body, hex);
    if d == [] then None else Some(DigitsValue(d, if hex then 16 else 10))
  }

  function DecimalDigits(s: string): (d: seq<nat>)
    requires forall i :: 0 <= i < |s| ==> IsDigit(s[i])
    ensures |d| == |s| && forall i :: 0 <= i < |s| ==> d[i] == DigitValue(s[i])
  {
    if s == [] then [] else [DigitValue(s[0])] + DecimalDigits(s[1..])
  }

  /** The decimal text of `n` reads back as `n`. */
  lemma {:induction false} NatToStringValue(n: nat)
    ensures DigitsValue(DecimalDigits(NatToString(n)), 10) == n
  {
    if n >= 10 {
      NatToStringValue(n / 10);
      var s := NatToString(n / 10);
      var d := DecimalDigits(NatToString(n));
      assert d[..|d| - 1] == DecimalDigits(s);
    }
  }

  /** `parseInt` of a run of decimal digits followed by a non-digit (or nothing) is the value
      of the digits, unless a lone `0` is followed by `x`, which selects base 16. */
  lemma ParseIntDecimal(d: string, rest: string)
    requires d != [] && forall i :: 0 <= i < |d| ==> IsDigit(d[i])
    requires rest == [] || RadixDigit(rest[0], false).None?
    requires |d| == 1 && d[0] == '0' && rest != [] ==> rest[0] != 'x' && rest[0] != 'X'
    ensures ParseInt(d + rest) == Some(DigitsValue(DecimalDigits(d), 10))
  {
    var s := d + rest;
    assert s[0] == d[0];
    ParseIntUnsigned(s);
    NotHexPrefix(d, rest);
    LeadingDecimal(d, rest);
  }

  /** A string starting with a digit has no white space or sign to skip. */
  lemma ParseIntUnsigned(s: string)
    requires s != [] && IsDigit(s[0])
    ensures ParseInt(s) == ParseUnsigned(s)
  {
    assert !IsWhite(s[0]);
    assert TrimStart(s) == s;
  }

  lemma NotHexPrefix(d: string, rest: string)
    requires d != [] && forall i :: 0 <= i < |d| ==> IsDigit(d[i])
    requires |d| == 1 && d[0] == '0' && rest != [] ==> rest[0] != 'x' && rest[0] != 'X'
    ensures ParseUnsigned(d + rest) == DigitRun(d + rest, false)
  {
    var s := d + rest;
    if |d| >= 2 {
      assert s[1] == d[1] && IsDigit(s[1]);
    } else if rest != [] {
      assert s[1] == rest[0];
    }
  }

  lemma {:induction false} LeadingDecimal(d: string, rest: string)
    requires forall i :: 0 <= i < |d| ==> IsDigit(d[i])
    requires rest == [] || RadixDigit(rest[0], false).None?
    ensures LeadingDigits(d + rest, false) == DecimalDigits(d)
  {
    if d == [] {
      assert d + rest == rest;
    } else {
      assert (d + rest)[1..] == d[1..] + rest;
      LeadingDecimal(d[1..], rest);
    }
  }

  /** `parseInt` reads back the printed form of a natural number before a colon. */
  lemma ParseIntNat(n: nat, rest: string)
    ensures ParseInt(NatToString(n) + ":" + rest) == Some(n)
  {
    var d := NatToString(n);
    assert d + ":" + rest == d + (":" + rest);
    ParseIntDecimal(d, ":" + rest);
    NatToStringValue(n);
  }

  /** Text opening with a letter other than a digit parses to NaN. */
  lemma StartsWithNonDigit(s: string)
    requires s != [] && ('A' <= s[0] <= 'Z' || 'a' <= s[0] <= 'z')
    ensures ParseInt(s).None?
  {
    assert !IsWhite(s[0]);
    TrimStartKeeps(s);
    assert LeadingDigits(s, false) == [];
  }

  lemma TrimStartKeeps(s: string)
    requires s != [] && !IsWhite(s[0])
    ensures TrimStart(s) == s
  {
  }

  /** The decimal text of `n` parses back to `n`. */
  lemma ParseIntOfNat(n: nat)
    ensures ParseInt(NatToString(n)) == Some(n)
  {
    var d := NatToString(n);
    assert d + [] == d;
    ParseIntDecimal(d, []);
    NatToStringValue(n);
  }

  /** A character that occurs in `s` is counted at least once. */
  lemma {:induction false} OccurrencesPositive(s: string, c: char)
    requires c in s
    ensures Occurrences(s, c) >= 1
  {
    if s[0] != c {
      OccurrencesPositive(s[1..], c);
    }
  }

  /** Text without the separator is a single piece. */
  lemma {:induction false} SplitNoSeparator(s: string, c: char)
    requires c !in s
    ensures Split(s, c) == [s]
  {
    if s != [] {
      SplitNoSeparator(s[1..], c);
      assert [s[0]] + s[1..] == s;
    }
  }

  /** The first piece ends at the first separator. */
  lemma {:induction false} SplitFirst(a: string, b: string, c: char)
    requires c !in a
    ensures Split(a + [c] + b, c) == [a] + Split(b, c)
  {
    if a == [] {
      assert a + [c] + b == [c] + b;
      assert ([c] + b)[1..] == b;
    } else {
      var s := a + [c] + b;
      assert s[1..] == a[1..] + [c] + b;
      SplitFirst(a[1..], b, c);
      assert [a[0]] + a[1..] == a;
    }
  }

  /** Text without white space is a single piece of `split(/\s+/)`. */
  lemma {:induction false} SplitWhiteNoWhite(a: string)
    requires forall i :: 0 <= i < |a| ==> !IsWhite(a[i])
    ensures SplitWhite(a) == [a]
  {
    if a != [] {
      SplitWhiteNoWhite(a[1..]);
      assert [a[0]] + a[1..] == a;
    }
  }

  /** A whole run of white space is stripped from the front. */
  lemma TrimStartWhiteRun(w: string, b: string)
    requires forall i :: 0 <= i < |w| ==> IsWhite(w[i])
    requires b == [] || !IsWhite(b[0])
    ensures TrimStart(w + b) == b
  {
    if b == [] {
      assert w + b == w;
    } else {
      TrimStartWhitePrefix(w, b);
    }
  }

  /** The first piece of `split(/\s+/)` ends at the first run of white space, and the
      whole run is the separator: the rest is split on its own. */
  lemma {:induction false} SplitWhiteRun(a: string, w: string, b: string)
    requires forall i :: 0 <= i < |a| ==> !IsWhite(a[i])
    requires w != [] && forall i :: 0 <= i < |w| ==> IsWhite(w[i])
    requires b == [] || !IsWhite(b[0])
    ensures SplitWhite(a + w + b) == [a] + SplitWhite(b)
  {
    var s := a + w + b;
    if a == [] {
      assert s == w + b;
      TrimStartWhiteRun(w, b);
    } else {
      assert s[1..] == a[1..] + w + b;
      SplitWhiteRun(a[1..], w, b);
      assert [a[0]] + a[1..] == a;
    }
  }

  /** Words without white space, joined by single spaces, split back into the words. */
  lemma {:induction false} SplitWhiteJoin(ws: seq<string>)
    requires ws != []
    requires forall k :: 0 <= k < |ws| ==> ws[k] != []
    requires forall k, i :: 0 <= k < |ws| && 0 <= i < |ws[k]| ==> !IsWhite(ws[k][i])
    ensures SplitWhite(Join(ws, ' ')) == ws
  {
    if |ws| == 1 {
      SplitWhiteNoWhite(ws[0]);
    } else {
      var tail := Join(ws[1..], ' ');
      assert tail[0] == ws[1][0];
      SplitWhiteRun(ws[0], " ", tail);
      SplitWhiteJoin(ws[1..]);
      HeadTail(ws);
    }
  }

  /** A string missing one of the characters of `sub` does not include `sub`. */
  lemma NotContains(s: string, sub: string, j: nat)
    requires j < |sub| && sub[j] !in s
    ensures !Contains(s, sub)
  {
    ContainsAt(s, sub);
  }

  /** Lower-casing maps white space to itself. */
  lemma LowerKeepsWhite(c: char)
    ensures IsWhite(LowerChar(c)) <==> IsWhite(c)
  {
  }

  lemma {:induction false} TrimStartLower(s: string)
    ensures TrimStart(ToLower(s)) == ToLower(TrimStart(s))
    decreases |s|
  {
    if |s| > 0 {
      LowerKeepsWhite(s[0]);
      assert ToLower(s)[1..] == ToLower(s[1..]);
      TrimStartLower(s[1..]);
    }
  }

  lemma {:induction false} TrimEndLower(s: string)
    ensures TrimEnd(ToLower(s)) == ToLower(TrimEnd(s))
    decreases |s|
  {
    if |s| > 0 {
      LowerKeepsWhite(s[|s| - 1]);
      assert ToLower(s)[..|s| - 1] == ToLower(s[..|s| - 1]);
      TrimEndLower(s[..|s| - 1]);
    }
  }

  /** `trim` and `toLowerCase` commute. */
  lemma TrimLower(s: string)
    ensures Trim(ToLower(s)) == ToLower(Trim(s))
  {
    TrimStartLower(s);
    TrimEndLower(TrimStart(s));
  }

  /** A string without upper-case ASCII letters is its own lower case. */
  lemma LowerOfLower(s: string)
    requires forall i :: 0 <= i < |s| ==> !('A' <= s[i] <= 'Z')
    ensures ToLower(s) == s
  {
  }

  /** Removing a character distributes over concatenation. */
  lemma {:induction false} RemoveCharConcat(a: string, b: string, c: char)
    ensures RemoveChar(a + b, c) == RemoveChar(a, c) + RemoveChar(b, c)
    decreases |a|
  {
    if a != [] {
      assert (a + b)[1..] == a[1..] + b;
      RemoveCharConcat(a[1..], b, c);
    } else {
      assert a + b == b;
    }
  }

  /** Removing a character that does not occur changes nothing. */
  lemma {:induction false} RemoveAbsent(s: string, c: char)
    requires c !in s
    ensures RemoveChar(s, c) == s
    decreases |s|
  {
    if s != [] {
      RemoveAbsent(s[1..], c);
    }
  }

  /** Removing a character from a run of it leaves nothing. */
  lemma {:induction false} RemoveRun(s: string, c: char)
    requires forall i :: 0 <= i < |s| ==> s[i] == c
    ensures RemoveChar(s, c) == []
    decreases |s|
  {
    if s != [] {
      RemoveRun(s[1..], c);
    }
  }
}
