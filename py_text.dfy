/**
  Python `str` and sequence operations used throughout the application, stated
  with the semantics of CPython: `strip`/`lstrip`/`rstrip`, `split`, `join`,
  `replace`, `startswith`/`endswith`, `in` on strings and slicing with
  possibly negative bounds.  Case mapping is modelled on ASCII letters only.
 */
module PyText {
  import opened Wrappers

  /** `str.isspace()` for one character: the Unicode White_Space characters
      that CPython treats as whitespace. */
  predicate IsSpace(c: char) {
    var n := c as int;
    n == 0x20 || 0x09 <= n <= 0x0D || 0x1C <= n <= 0x1F || n == 0x85 || n == 0xA0
    || n == 0x1680 || 0x2000 <= n <= 0x200A || n == 0x2028 || n == 0x2029
    || n == 0x202F || n == 0x205F || n == 0x3000
  }

  predicate IsAsciiDigit(c: char) { '0' as int <= c as int <= '9' as int }

  predicate IsAsciiLetter(c: char) { 'A' <= c <= 'Z' || 'a' <= c <= 'z' }

  /** True when every character of `s` is whitespace (Python: `not s or not s.strip()`). */
  predicate IsBlank(s: string) {
    forall i :: 0 <= i < |s| ==> IsSpace(s[i])
  }

  /** Drops the longest prefix of characters satisfying `p`. */
  function LStripBy(s: string, p: char -> bool): (r: string)
    ensures |r| <= |s| && r == s[|s| - |r|..]
    ensures r == [] || !p(r[0])
    ensures forall k :: 0 <= k < |s| - |r| ==> p(s[k])
    decreases |s|
  {
    if |s| > 0 && p(s[0]) then LStripBy(s[1..], p) else s
  }

  /** Drops the longest suffix of characters satisfying `p`. */
  function RStripBy(s: string, p: char -> bool): (r: string)
    ensures |r| <= |s| && r == s[..|r|]
    ensures r == [] || !p(r[|r| - 1])
    ensures forall k :: |r| <= k < |s| ==> p(s[k])
    decreases |s|
  {
    if |s| > 0 && p(s[|s| - 1]) then RStripBy(s[..|s| - 1], p) else s
  }

  function StripBy(s: string, p: char -> bool): string {
    RStripBy(LStripBy(s, p), p)
  }

  /** `s.strip()` */
  function Strip(s: string): string { StripBy(s, IsSpace) }

  /** `s.lstrip()` */
  function LStrip(s: string): string { LStripBy(s, IsSpace) }

  /** `s.rstrip()` */
  function RStrip(s: string): string { RStripBy(s, IsSpace) }

  /** `s.strip(chars)` */
  function StripChars(s: string, chars: set<char>): string {
    StripBy(s, c => c in chars)
  }

  /** The stripped string is the blank-free middle of the original: it is empty
      exactly when the original is blank, and otherwise starts and ends with a
      non-whitespace character. */
  lemma StripSpec(s: string)
    ensures Strip(s) == [] <==> IsBlank(s)
    ensures Strip(s) != [] ==> !IsSpace(Strip(s)[0]) && !IsSpace(Strip(s)[|Strip(s)| - 1])
    ensures exists i, j :: 0 <= i <= j <= |s| && Strip(s) == s[i..j]
  {
    var l := LStripBy(s, IsSpace);
    var r := RStripBy(l, IsSpace);
    assert r == l[..|r|];
    assert s[|s| - |l|..][..|r|] == s[|s| - |l|..|s| - |l| + |r|];
    if r == [] {
      assert l == [];
    }
  }

  /** Stripping twice is stripping once. */
  lemma StripIdempotent(s: string)
    ensures Strip(Strip(s)) == Strip(s)
  {
    StripSpec(s);
    var t := Strip(s);
    if t != [] {
      assert LStripBy(t, IsSpace) == t;
      assert RStripBy(t, IsSpace) == t;
    }
  }

  /** Stripping removes characters and adds none. */
  lemma StripKeepsAbsent(s: string, p: char -> bool, c: char)
    requires c !in s
    ensures c !in StripBy(s, p)
  {
    var l := LStripBy(s, p);
    var r := RStripBy(l, p);
    assert forall k :: 0 <= k < |r| ==> r[k] == s[|s| - |l| + k];
  }

  /** A string that starts and ends outside `p` is its own strip. */
  lemma StripNoop(s: string, p: char -> bool)
    requires s == [] || (!p(s[0]) && !p(s[|s| - 1]))
    ensures StripBy(s, p) == s
  {
  }

  /** Stripping keeps a contiguous piece of the original. */
  lemma StripBySlice(s: string, p: char -> bool)
    ensures var r := StripBy(s, p); var i := |s| - |LStripBy(s, p)|;
      i + |r| <= |s| && r == s[i..i + |r|]
  {
    var l := LStripBy(s, p);
    var r := RStripBy(l, p);
    assert r == l[..|r|];
  }

  /** Every property all characters of `s` share survives stripping, and a
      non-empty result starts and ends outside `p`. */
  lemma StripByKeeps(s: string, p: char -> bool, q: char -> bool)
    requires forall i :: 0 <= i < |s| ==> q(s[i])
    ensures var r := StripBy(s, p);
      (forall i :: 0 <= i < |r| ==> q(r[i])) && (r != [] ==> !p(r[0]) && !p(r[|r| - 1]))
  {
    StripBySlice(s, p);
  }

  // ---------------------------------------------------------------------
  // Prefixes, suffixes and substrings

  predicate StartsWith(s: string, prefix: string) {
    |prefix| <= |s| && s[..|prefix|] == prefix
  }

  predicate EndsWith(s: string, suffix: string) {
    |suffix| <= |s| && s[|s| - |suffix|..] == suffix
  }

  /** `sub in s` */
  predicate Contains(s: string, sub: string)
    decreases |s|
  {
    StartsWith(s, sub) || (|s| > 0 && Contains(s[1..], sub))
  }

  /** `sub` cannot occur where its first character does not. */
  lemma {:induction false} NotContainedWithoutFirstChar(s: string, sub: string)
    requires |sub| > 0
    requires forall i :: 0 <= i <= |s| - |sub| ==> s[i] != sub[0]
    ensures !Contains(s, sub)
    decreases |s|
  {
    if |s| > 0 {
      assert forall i :: 0 <= i <= |s[1..]| - |sub| ==> s[1..][i] == s[i + 1];
      NotContainedWithoutFirstChar(s[1..], sub);
    }
  }

  // ---------------------------------------------------------------------
  // Splitting and joining

  /** `s.split(sep)` for a one-character separator: always at least one piece. */
  function Split(s: string, sep: char): (r: seq<string>)
    ensures |r| >= 1
    ensures forall k :: 0 <= k < |r| ==> sep !in r[k]
    decreases |s|
  {
    if |s| == 0 then [""]
    else if s[0] == sep then [""] + Split(s[1..], sep)
    else
      var rest := Split(s[1..], sep);
      [[s[0]] + rest[0]] + rest[1..]
  }

  /** `sep.join(parts)` */
  function Join(sep: string, parts: seq<string>): string
    decreases |parts|
  {
    if |parts| == 0 then ""
    else if |parts| == 1 then parts[0]
    else parts[0] + sep + Join(sep, parts[1..])
  }

  /** Joining a part in front of others adds it and a separator at the start. */
  lemma {:induction false} JoinCons(sep: string, x: string, parts: seq<string>)
    requires parts != []
    ensures Join(sep, [x] + parts) == x + sep + Join(sep, parts)
  {
    assert ([x] + parts)[1..] == parts;
  }

  /** Joining one more part adds the separator and the part at the end. */
  lemma {:induction false} JoinSnoc(sep: string, parts: seq<string>, x: string)
    ensures Join(sep, parts + [x]) == if parts == [] then x else Join(sep, parts) + sep + x
    decreases |parts|
  {
    if |parts| > 1 {
      assert (parts + [x])[1..] == parts[1..] + [x];
      JoinSnoc(sep, parts[1..], x);
    } else if |parts| == 1 {
      assert (parts + [x])[1..] == [x];
    }
  }

  /** Splitting on a character and joining back with it gives the original string. */
  lemma {:induction false} JoinSplit(s: string, sep: char)
    ensures Join([sep], Split(s, sep)) == s
    decreases |s|
  {
    if |s| == 0 {
    } else if s[0] == sep {
      JoinSplit(s[1..], sep);
      var rest := Split(s[1..], sep);
      assert Split(s, sep) == [""] + rest;
      assert ([""] + rest)[1..] == rest;
      assert s == [sep] + s[1..];
    } else {
      JoinSplit(s[1..], sep);
      var rest := Split(s[1..], sep);
      var r := [[s[0]] + rest[0]] + rest[1..];
      assert Split(s, sep) == r;
      if |rest| == 1 {
        assert Join([sep], r) == [s[0]] + rest[0];
      } else {
        assert r[1..] == rest[1..];
        assert Join([sep], rest) == rest[0] + [sep] + Join([sep], rest[1..]);
      }
    }
  }

  /** A string without the separator splits into itself alone. */
  lemma {:induction false} SplitNoSep(a: string, sep: char)
    requires sep !in a
    ensures Split(a, sep) == [a]
    decreases |a|
  {
    if |a| > 0 {
      assert sep !in a[1..] by {
        forall k | 0 <= k < |a[1..]| ensures a[1..][k] != sep { assert a[1..][k] == a[k + 1]; }
      }
      SplitNoSep(a[1..], sep);
      assert a == [a[0]] + a[1..];
    }
  }

  /** Joining parts that hold no separator and splitting again gives the parts. */
  lemma {:induction false} SplitJoin(parts: seq<string>, sep: char)
    requires |parts| >= 1
    requires forall k :: 0 <= k < |parts| ==> sep !in parts[k]
    ensures Split(Join([sep], parts), sep) == parts
    decreases |parts|
  {
    if |parts| == 1 {
      SplitNoSep(parts[0], sep);
    } else {
      SplitJoin(parts[1..], sep);
      SplitAfterFirst(parts[0], sep, Join([sep], parts[1..]));
      assert parts == [parts[0]] + parts[1..];
    }
  }

  /** Splitting `a + sep + b` where `a` has no separator gives `a`, then the pieces of `b`. */
  lemma {:induction false} SplitAfterFirst(a: string, sep: char, b: string)
    requires sep !in a
    ensures Split(a + [sep] + b, sep) == [a] + Split(b, sep)
    decreases |a|
  {
    var s := a + [sep] + b;
    if |a| == 0 {
      assert s == [sep] + b;
      assert s[1..] == b;
    } else {
      assert sep !in a[1..] by {
        forall k | 0 <= k < |a[1..]| ensures a[1..][k] != sep { assert a[1..][k] == a[k + 1]; }
      }
      SplitAfterFirst(a[1..], sep, b);
      assert s[1..] == a[1..] + [sep] + b;
      assert s[0] == a[0];
      assert a == [a[0]] + a[1..];
    }
  }

  /** The length of the run of non-whitespace characters at the start of `s`. */
  function WordLen(s: string): (n: nat)
    ensures n <= |s|
    ensures forall i :: 0 <= i < n ==> !IsSpace(s[i])
    ensures n < |s| ==> IsSpace(s[n])
    decreases |s|
  {
    if |s| == 0 || IsSpace(s[0]) then 0 else 1 + WordLen(s[1..])
  }

  /** `s.split()` without an argument: the maximal runs of non-whitespace. */
  function Words(s: string): (r: seq<string>)
    ensures forall k :: 0 <= k < |r| ==> |r[k]| > 0 && forall i :: 0 <= i < |r[k]| ==> !IsSpace(r[k][i])
    decreases |s|
  {
    if |s| == 0 then []
    else if IsSpace(s[0]) then Words(s[1..])
    else
      var n := WordLen(s);
      [s[..n]] + Words(s[n..])
  }

  // ---------------------------------------------------------------------
  // Searching from the end

  /** The position of the last `c` in `s`, or -1 (`str.rfind`). */
  function RFind(s: string, c: char): (i: int)
    ensures -1 <= i < |s|
    ensures i >= 0 ==> s[i] == c
    decreases |s|
  {
    if |s| == 0 then -1
    else if s[|s| - 1] == c then |s| - 1
    else RFind(s[..|s| - 1], c)
  }

  /** Nothing after the position `RFind` returns is `c`. */
  lemma {:induction false} RFindLast(s: string, c: char, k: int)
    requires RFind(s, c) < k < |s|
    ensures s[k] != c
    decreases |s|
  {
    if s[|s| - 1] != c && k < |s| - 1 {
      RFindLast(s[..|s| - 1], c, k);
    }
  }

  lemma {:induction false} RFindAbsent(s: string, c: char)
    requires c !in s
    ensures RFind(s, c) == -1
    decreases |s|
  {
    if |s| > 0 {
      RFindAbsent(s[..|s| - 1], c);
    }
  }

  // ---------------------------------------------------------------------
  // Replacement and case mapping

  /** `s.replace(pat, rep)` for a non-empty `pat`: non-overlapping, left to right. */
  function ReplaceAll(s: string, pat: string, rep: string): string
    requires |pat| > 0
    decreases |s|
  {
    if |s| < |pat| then s
    else if s[..|pat|] == pat then rep + ReplaceAll(s[|pat|..], pat, rep)
    else [s[0]] + ReplaceAll(s[1..], pat, rep)
  }

  /** Replacing a string by the empty string removes every occurrence of it. */
  lemma {:induction false} ReplaceAllRemoves(s: string, pat: string)
    requires |pat| > 0
    ensures |ReplaceAll(s, pat, "")| <= |s|
    decreases |s|
  {
    if |s| < |pat| {
    } else if s[..|pat|] == pat {
      ReplaceAllRemoves(s[|pat|..], pat);
    } else {
      ReplaceAllRemoves(s[1..], pat);
    }
  }

  function LowerChar(c: char): char {
    if 'A' <= c <= 'Z' then (c as int + 32) as char else c
  }

  function UpperChar(c: char): char {
    if 'a' <= c <= 'z' then (c as int - 32) as char else c
  }

  /** `s.lower()` on ASCII letters */
  function Lower(s: string): (r: string)
    ensures |r| == |s| && forall i :: 0 <= i < |s| ==> r[i] == LowerChar(s[i])
  {
    seq(|s|, i requires 0 <= i < |s| => LowerChar(s[i]))
  }

  /** `s.upper()` on ASCII letters */
  function Upper(s: string): (r: string)
    ensures |r| == |s| && forall i :: 0 <= i < |s| ==> r[i] == UpperChar(s[i])
  {
    seq(|s|, i requires 0 <= i < |s| => UpperChar(s[i]))
  }

  // ---------------------------------------------------------------------
  // Python slicing with possibly negative bounds

  /** The index Python uses for a slice bound `n` on a sequence of length `len`. */
  function SliceIndex(len: nat, n: int): (k: nat)
    ensures k <= len
    ensures 0 <= n <= len ==> k == n
    ensures n > len ==> k == len
  {
    if n >= 0 then (if n <= len then n else len)
    else if len + n >= 0 then len + n else 0
  }

  /** `s[:n]` */
  function PyTake<T>(s: seq<T>, n: int): seq<T> {
    s[..SliceIndex(|s|, n)]
  }

  /** `s[n:]` */
  function PyDrop<T>(s: seq<T>, n: int): seq<T> {
    s[SliceIndex(|s|, n)..]
  }

  /** `s[:n] + s[n:] == s` for every `n`, negative ones included. */
  lemma TakeDrop<T>(s: seq<T>, n: int)
    ensures PyTake(s, n) + PyDrop(s, n) == s
  {
  }

  // ---------------------------------------------------------------------
  // Integer formatting

  function DigitChar(d: nat): char
    requires d < 10
  {
    ('0' as int + d) as char
  }

  /** `str(n)` for a natural number. */
  function NatToStr(n: nat): (r: string)
    ensures |r| >= 1 && forall i :: 0 <= i < |r| ==> IsAsciiDigit(r[i])
    decreases n
  {
    if n < 10 then [DigitChar(n)] else NatToStr(n / 10) + [DigitChar(n % 10)]
  }

  /** `str(n)` for any integer. */
  function IntToStr(n: int): string {
    if n < 0 then "-" + NatToStr(-n) else NatToStr(n)
  }

  /** `f"{n:0{width}d}"` for a natural number: left-padded with zeros. */
  function ZeroPad(n: nat, width: nat): (r: string)
    ensures |r| >= width
    ensures forall i :: 0 <= i < |r| ==> IsAsciiDigit(r[i])
  {
    var s := NatToStr(n);
    if |s| >= width then s else seq(width - |s|, _ => '0') + s
  }

  /** The value of a string of ASCII digits. */
  function DigitsValue(s: string): nat
    requires forall i :: 0 <= i < |s| ==> IsAsciiDigit(s[i])
    decreases |s|
  {
    if |s| == 0 then 0
    else
      assert IsAsciiDigit(s[|s| - 1]);
      DigitsValue(s[..|s| - 1]) * 10 + (s[|s| - 1] as int - '0' as int)
  }

  /** Appending a digit multiplies the value by ten and adds the digit. */
  lemma DigitsValueSnoc(s: string, c: char)
    requires forall i :: 0 <= i < |s| ==> IsAsciiDigit(s[i])
    requires IsAsciiDigit(c)
    ensures DigitsValue(s + [c]) == DigitsValue(s) * 10 + (c as int - '0' as int)
  {
    assert (s + [c])[..|s|] == s;
  }

  /** Reading back `str(n)` gives `n`. */
  lemma {:induction false} DigitsValueNatToStr(n: nat)
    ensures DigitsValue(NatToStr(n)) == n
    decreases n
  {
    if n < 10 {
      assert NatToStr(n) == [] + [DigitChar(n)];
      DigitsValueSnoc([], DigitChar(n));
    } else {
      DigitsValueNatToStr(n / 10);
      DigitsValueSnoc(NatToStr(n / 10), DigitChar(n % 10));
    }
  }

  /** Leading zeros do not change the value. */
  lemma {:induction false} DigitsValueLeadingZeros(k: nat, s: string)
    requires forall i :: 0 <= i < |s| ==> IsAsciiDigit(s[i])
    ensures DigitsValue(seq(k, _ => '0') + s) == DigitsValue(s)
    decreases |s|
  {
    var z := seq(k, _ => '0');
    if |s| == 0 {
      assert z + s == z;
      ZerosValue(k);
    } else {
      var init := s[..|s| - 1];
      DigitsValueLeadingZeros(k, init);
      assert z + s == (z + init) + [s[|s| - 1]];
      assert s == init + [s[|s| - 1]];
      DigitsValueSnoc(z + init, s[|s| - 1]);
      DigitsValueSnoc(init, s[|s| - 1]);
    }
  }

  lemma {:induction false} ZerosValue(k: nat)
    ensures DigitsValue(seq(k, _ => '0')) == 0
  {
    if k > 0 {
      ZerosValue(k - 1);
      assert seq(k, _ => '0') == seq(k - 1, _ => '0') + ['0'];
      DigitsValueSnoc(seq(k - 1, _ => '0'), '0');
    }
  }

  /** Reading back a zero-padded number gives the number. */
  lemma ZeroPadValue(n: nat, width: nat)
    ensures DigitsValue(ZeroPad(n, width)) == n
  {
    DigitsValueNatToStr(n);
    var s := NatToStr(n);
    if |s| < width {
      DigitsValueLeadingZeros(width - |s|, s);
    }
  }

  /** `int(t)` for a text: surrounding whitespace, an optional sign, then one
      or more ASCII digits; anything else is a `ValueError` (None). */
  function ParseInt(t: string): Option<int> {
    var u := Strip(t);
    if |u| > 0 && (u[0] == '-' || u[0] == '+') then
      var d := u[1..];
      if |d| > 0 && forall i :: 0 <= i < |d| ==> IsAsciiDigit(d[i]) then
        var v: int := DigitsValue(d);
        Some(if u[0] == '-' then -v else v)
      else None
    else if |u| > 0 && forall i :: 0 <= i < |u| ==> IsAsciiDigit(u[i]) then Some(DigitsValue(u))
    else None
  }

  /** A plain run of digits reads as its value. */
  lemma ParseIntDigits(t: string)
    requires |t| > 0 && forall i :: 0 <= i < |t| ==> IsAsciiDigit(t[i])
    ensures ParseInt(t) == Some(DigitsValue(t))
  {
    assert !IsSpace(t[0]) && !IsSpace(t[|t| - 1]);
    assert LStripBy(t, IsSpace) == t;
    assert RStripBy(t, IsSpace) == t;
  }

  // ---------------------------------------------------------------------
  // String order

  /** Python's `<` on strings: lexicographic by code point. */
  predicate StrLess(a: string, b: string)
    decreases |a|
  {
    |b| > 0 && (|a| == 0 || a[0] < b[0] || (a[0] == b[0] && StrLess(a[1..], b[1..])))
  }

  lemma {:induction false} StrLessIrreflexive(a: string)
    ensures !StrLess(a, a)
    decreases |a|
  {
    if |a| > 0 { StrLessIrreflexive(a[1..]); }
  }

  lemma {:induction false} StrLessTransitive(a: string, b: string, c: string)
    requires StrLess(a, b) && StrLess(b, c)
    ensures StrLess(a, c)
    decreases |a|
  {
    if |a| > 0 && a[0] == b[0] && b[0] == c[0] {
      StrLessTransitive(a[1..], b[1..], c[1..]);
    }
  }

  lemma {:induction false} StrLessTotal(a: string, b: string)
    ensures a == b || StrLess(a, b) || StrLess(b, a)
    decreases |a|
  {
    if |a| > 0 && |b| > 0 && a[0] == b[0] {
      StrLessTotal(a[1..], b[1..]);
      if a[1..] == b[1..] {
        assert a == [a[0]] + a[1..] && b == [b[0]] + b[1..];
      }
    }
  }

  // ---------------------------------------------------------------------
  // Numbers

  /** `int(x)` for a real: truncation toward zero. */
  function TruncToInt(x: real): (r: int)
    ensures x >= 0.0 ==> r as real <= x < r as real + 1.0
    ensures x < 0.0 ==> r as real - 1.0 < x <= r as real
  {
    if x >= 0.0 then x.Floor else -((-x).Floor)
  }

  // ---------------------------------------------------------------------
  // Regular-expression substitution of character runs

  /** The length of the run of characters outside `keep` at the start of `s`. */
  function RunLen(s: string, keep: char -> bool): (n: nat)
    ensures n <= |s|
    ensures forall i :: 0 <= i < n ==> !keep(s[i])
    ensures n < |s| ==> keep(s[n])
    decreases |s|
  {
    if |s| == 0 || keep(s[0]) then 0 else 1 + RunLen(s[1..], keep)
  }

  /** `re.sub("[^<class>]+", rep, s)`: every maximal run of characters outside
      the class `keep` becomes the single character `rep`; characters of the
      class are copied. */
  function SubRuns(s: string, keep: char -> bool, rep: char): (r: string)
    ensures |r| <= |s|
    ensures forall i :: 0 <= i < |r| ==> keep(r[i]) || r[i] == rep
    decreases |s|
  {
    if |s| == 0 then []
    else if keep(s[0]) then [s[0]] + SubRuns(s[1..], keep, rep)
    else
      var n := RunLen(s, keep);
      [rep] + SubRuns(s[n..], keep, rep)
  }

  /** A string made of class characters only has nothing to substitute. */
  lemma {:induction false} SubRunsKeepsClass(s: string, keep: char -> bool, rep: char)
    requires forall i :: 0 <= i < |s| ==> keep(s[i])
    ensures SubRuns(s, keep, rep) == s
    decreases |s|
  {
    if |s| > 0 {
      SubRunsKeepsClass(s[1..], keep, rep);
      assert s == [s[0]] + s[1..];
    }
  }

  /** No two substituted runs are adjacent: a replacement character that is
      itself outside the class is always followed by a class character. */
  lemma {:induction false} SubRunsSeparated(s: string, keep: char -> bool, rep: char, i: nat)
    requires !keep(rep)
    requires i + 1 < |SubRuns(s, keep, rep)| && SubRuns(s, keep, rep)[i] == rep
    ensures keep(SubRuns(s, keep, rep)[i + 1])
    decreases |s|
  {
    var r := SubRuns(s, keep, rep);
    if keep(s[0]) {
      SubRunsSeparated(s[1..], keep, rep, i - 1);
    } else {
      var n := RunLen(s, keep);
      if i > 0 {
        SubRunsSeparated(s[n..], keep, rep, i - 1);
      } else {
        assert |s[n..]| > 0;
      }
    }
  }

  // ---------------------------------------------------------------------
  // Paths

  /** `Path(p).name`: the text after the last '/'. */
  function PathName(p: string): (r: string)
    ensures '/' !in r
    ensures |r| <= |p| && r == p[|p| - |r|..]
  {
    RFindTailFree(p, '/');
    p[RFind(p, '/') + 1..]
  }

  /** Nothing after the last `c` is `c`. */
  lemma {:induction false} RFindTailFree(s: string, c: char)
    ensures c !in s[RFind(s, c) + 1..]
    decreases |s|
  {
    if |s| > 0 && s[|s| - 1] != c {
      var init := s[..|s| - 1];
      RFindTailFree(init, c);
      assert s[RFind(s, c) + 1..] == init[RFind(init, c) + 1..] + [s[|s| - 1]];
    }
  }

  /** `Path(name).suffix` for a bare file name: from the last dot on, unless
      that dot is the first or the last character. */
  function PathSuffix(name: string): (r: string)
    ensures r == [] || (r[0] == '.' && |r| >= 2)
    ensures |r| <= |name| && r == name[|name| - |r|..]
  {
    var i := RFind(name, '.');
    if 0 < i < |name| - 1 then name[i..] else ""
  }

  /** A name ending in a dot and a dot-free extension has that suffix, when
      something precedes the dot. */
  lemma {:induction false} SuffixOfDottedName(stem: string, ext: string)
    requires |stem| > 0 && |ext| > 0 && '.' !in ext
    ensures PathSuffix(stem + "." + ext) == "." + ext
  {
    var s := stem + "." + ext;
    assert s[|stem|] == '.';
    RFindAfter(s, '.', |stem|);
    assert s[|stem|..] == "." + ext;
  }

  /** When `c` sits at `k` and not after it, `RFind` finds `k`. */
  lemma {:induction false} RFindAfter(s: string, c: char, k: nat)
    requires k < |s| && s[k] == c
    requires forall j :: k < j < |s| ==> s[j] != c
    ensures RFind(s, c) == k
    decreases |s|
  {
    if k < |s| - 1 {
      RFindAfter(s[..|s| - 1], c, k);
    }
  }
}
