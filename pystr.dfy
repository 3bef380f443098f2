/**
 * The fragment of Python's `str` that the scraper relies on: `strip`,
 * `rstrip(chars)`, `in`, `split(sep)`, `replace`, `endswith`, `int(...)`,
 * `str(int)` and `title()`.  Strings are sequences of Unicode scalar values,
 * as Python's are.
 */
module PyStr {
  import opened Wrappers

  // ---------------------------------------------------------------------
  // Whitespace and stripping
  // ---------------------------------------------------------------------

  /** The characters for which Python's `str.isspace()` holds; `strip()` and `int()` drop them. */
  predicate IsSpace(c: char) {
    || c == ' '
    || '\t' <= c <= '\r'
    || '\U{1c}' <= c <= '\U{1f}'
    || c == '\U{85}'
    || c == '\U{a0}'
    || c == '\U{1680}'
    || '\U{2000}' <= c <= '\U{200a}'
    || c == '\U{2028}'
    || c == '\U{2029}'
    || c == '\U{202f}'
    || c == '\U{205f}'
    || c == '\U{3000}'
  }

  /** `s.lstrip(chars)`, the character set given as a predicate. */
  function LStripWhile(s: string, drop: char -> bool): (r: string)
    ensures |r| <= |s| && r == s[|s| - |r|..]
    ensures forall k :: 0 <= k < |s| - |r| ==> drop(s[k])
    ensures r == [] || !drop(r[0])
    decreases |s|
  {
    if s != [] && drop(s[0]) then
      var r := LStripWhile(s[1..], drop);
      assert forall k :: 1 <= k < |s| - |r| ==> s[k] == s[1..][k - 1];
      r
    else s
  }

  /** `s.rstrip(chars)`, the character set given as a predicate. */
  function RStripWhile(s: string, drop: char -> bool): (r: string)
    ensures |r| <= |s| && r == s[..|r|]
    ensures forall k :: |r| <= k < |s| ==> drop(s[k])
    ensures r == [] || !drop(r[|r| - 1])
    decreases |s|
  {
    if s != [] && drop(s[|s| - 1]) then RStripWhile(s[..|s| - 1], drop) else s
  }

  /** `s.strip(chars)`: both ends. */
  function StripWhile(s: string, drop: char -> bool): (r: string)
    ensures |r| <= |s|
    ensures r == [] || (!drop(r[0]) && !drop(r[|r| - 1]))
    ensures forall c :: c in r ==> c in s
    ensures s == [] || (!drop(s[0]) && !drop(s[|s| - 1])) ==> r == s
  {
    var l := LStripWhile(s, drop);
    var r := RStripWhile(l, drop);
    assert forall c :: c in r ==> c in l;
    r
  }

  /** `s.strip()` */
  function Strip(s: string): string {
    StripWhile(s, IsSpace)
  }

  /** A string that neither starts nor ends with whitespace is its own `strip()`. */
  lemma StripUnchanged(s: string)
    requires s == [] || (!IsSpace(s[0]) && !IsSpace(s[|s| - 1]))
    ensures Strip(s) == s
  {
    var l := LStripWhile(s, IsSpace);
    assert l == s;
    assert RStripWhile(l, IsSpace) == l;
  }

  /** Stripping the front of `x + y` stops inside `x` or at `y`'s first character, when that one is kept. */
  lemma {:induction false} LStripAppend(x: string, y: string, drop: char -> bool)
    requires y != [] && !drop(y[0])
    ensures LStripWhile(x + y, drop) == LStripWhile(x, drop) + y
    decreases |x|
  {
    if x == [] {
      assert x + y == y;
    } else if drop(x[0]) {
      assert (x + y)[1..] == x[1..] + y;
      LStripAppend(x[1..], y, drop);
    }
  }

  /** Stripping the back of `x + y` stops inside `y` or at `x`'s last character, when that one is kept. */
  lemma {:induction false} RStripPrepend(x: string, y: string, drop: char -> bool)
    requires x != [] && !drop(x[|x| - 1])
    ensures RStripWhile(x + y, drop) == x + RStripWhile(y, drop)
    decreases |y|
  {
    if y == [] {
      assert x + y == x;
    } else if drop(y[|y| - 1]) {
      assert (x + y)[..|x + y| - 1] == x + y[..|y| - 1];
      RStripPrepend(x, y[..|y| - 1], drop);
    }
  }

  /** Whitespace padding around a text that neither starts nor ends with whitespace is what `strip()` removes. */
  lemma StripPadded(pre: string, s: string, post: string)
    requires s != [] && !IsSpace(s[0]) && !IsSpace(s[|s| - 1])
    requires forall k :: 0 <= k < |pre| ==> IsSpace(pre[k])
    requires forall k :: 0 <= k < |post| ==> IsSpace(post[k])
    ensures Strip(pre + (s + post)) == s
  {
    var t := pre + (s + post);
    LStripAppend(pre, s + post, IsSpace);
    LStripAllDropped(pre, IsSpace);
    assert LStripWhile(t, IsSpace) == [] + (s + post) == s + post;
    RStripPrepend(s, post, IsSpace);
    RStripAllDropped(post, IsSpace);
    assert RStripWhile(s + post, IsSpace) == s + [] == s;
    assert Strip(t) == RStripWhile(LStripWhile(t, IsSpace), IsSpace);
  }

  /** Stripping a text made only of dropped characters leaves nothing. */
  lemma {:induction false} LStripAllDropped(s: string, drop: char -> bool)
    requires forall k :: 0 <= k < |s| ==> drop(s[k])
    ensures LStripWhile(s, drop) == []
    decreases |s|
  {
    if s != [] {
      assert forall k :: 0 <= k < |s[1..]| ==> s[1..][k] == s[k + 1];
      LStripAllDropped(s[1..], drop);
    }
  }

  lemma {:induction false} RStripAllDropped(s: string, drop: char -> bool)
    requires forall k :: 0 <= k < |s| ==> drop(s[k])
    ensures RStripWhile(s, drop) == []
    decreases |s|
  {
    if s != [] {
      assert forall k :: 0 <= k < |s| - 1 ==> s[..|s| - 1][k] == s[k];
      RStripAllDropped(s[..|s| - 1], drop);
    }
  }

  /** Stripping the back of `x + [c] + y`, for a kept `c`, stops inside `y` or at `c`. */
  lemma {:induction false} RStripAfterKept(x: string, c: char, y: string, drop: char -> bool)
    requires !drop(c)
    ensures RStripWhile(x + ([c] + y), drop) == x + ([c] + RStripWhile(y, drop))
    decreases |y|
  {
    if y == [] {
      assert [c] + y == [c];
    } else if drop(y[|y| - 1]) {
      assert (x + ([c] + y))[..|x + ([c] + y)| - 1] == x + ([c] + y[..|y| - 1]);
      RStripAfterKept(x, c, y[..|y| - 1], drop);
    }
  }

  /** Around a character that is not whitespace, `strip()` only trims the two outer parts. */
  lemma StripAroundKept(a: string, c: char, b: string)
    requires !IsSpace(c)
    ensures Strip(a + ([c] + b)) == LStripWhile(a, IsSpace) + ([c] + RStripWhile(b, IsSpace))
  {
    LStripAppend(a, [c] + b, IsSpace);
    RStripAfterKept(LStripWhile(a, IsSpace), c, b, IsSpace);
  }

  /** No decimal digit is whitespace. */
  lemma DigitNotSpace(c: char)
    requires '0' <= c <= '9'
    ensures !IsSpace(c)
  {
  }

  /** `s.strip(c)` for a single character `c`, as in `strip('"')`. */
  function StripChar(s: string, c: char): string {
    StripWhile(s, x => x == c)
  }

  // ---------------------------------------------------------------------
  // Searching, splitting and replacing
  // ---------------------------------------------------------------------

  /** `sub` occurs in `s` starting at index `i`. */
  predicate OccursAt(s: string, sub: string, i: nat) {
    i + |sub| <= |s| && s[i..i + |sub|] == sub
  }

  /** The lowest index at or after `from` where `sub` occurs, as `s.find(sub, from)`. */
  function FindFrom(s: string, sub: string, from: nat): (r: Option<nat>)
    ensures r.Some? ==> from <= r.value && OccursAt(s, sub, r.value)
    ensures r.Some? ==> forall j: nat :: from <= j < r.value ==> !OccursAt(s, sub, j)
    ensures r.None? ==> forall j: nat :: from <= j ==> !OccursAt(s, sub, j)
    decreases |s| - from
  {
    if from + |sub| > |s| then None
    else if s[from..from + |sub|] == sub then Some(from)
    else FindFrom(s, sub, from + 1)
  }

  /** `s.find(sub)`, with `None` for Python's `-1`. */
  function Find(s: string, sub: string): (r: Option<nat>)
    ensures r.Some? ==> OccursAt(s, sub, r.value) && forall j: nat :: j < r.value ==> !OccursAt(s, sub, j)
    ensures r.None? ==> forall j: nat :: !OccursAt(s, sub, j)
  {
    FindFrom(s, sub, 0)
  }

  /** Python's `sub in s`. */
  predicate Contains(s: string, sub: string)
    ensures Contains(s, sub) <==> exists j: nat :: OccursAt(s, sub, j)
  {
    Find(s, sub).Some?
  }

  /** `sep.join(parts)` */
  function Join(parts: seq<string>, sep: string): string
    decreases |parts|
  {
    if |parts| == 0 then ""
    else if |parts| == 1 then parts[0]
    else parts[0] + sep + Join(parts[1..], sep)
  }

  /** No occurrence before `i` in `s` means none in `s[..i]`. */
  lemma NoOccurrenceInPrefix(s: string, sub: string, i: nat)
    requires sub != [] && i <= |s|
    requires forall j: nat :: j < i ==> !OccursAt(s, sub, j)
    ensures !Contains(s[..i], sub)
  {
    forall j: nat | OccursAt(s[..i], sub, j)
      ensures false
    {
      assert s[..i][j..j + |sub|] == s[j..j + |sub|];
      assert OccursAt(s, sub, j);
    }
  }

  /**
   * `s.split(sep)` for a non-empty separator: the pieces between successive
   * left-to-right, non-overlapping occurrences of `sep`.  Joining them back
   * with `sep` gives `s`, and no piece contains `sep`.
   */
  function Split(s: string, sep: string): (r: seq<string>)
    requires sep != []
    ensures |r| >= 1
    ensures Join(r, sep) == s
    ensures forall k :: 0 <= k < |r| ==> !Contains(r[k], sep)
    decreases |s|
  {
    match Find(s, sep)
    case None => [s]
    case Some(i) =>
      var rest := Split(s[i + |sep|..], sep);
      NoOccurrenceInPrefix(s, sep, i);
      var r := [s[..i]] + rest;
      assert r[1..] == rest;
      assert s == s[..i] + sep + s[i + |sep|..];
      r
  }

  /** `[c] in s` is membership of the character. */
  lemma ContainsChar(s: string, c: char)
    ensures Contains(s, [c]) <==> c in s
  {
    if c in s {
      var k :| 0 <= k < |s| && s[k] == c;
      assert s[k..k + 1] == [c];
      assert OccursAt(s, [c], k);
    }
    if Contains(s, [c]) {
      var j: nat :| OccursAt(s, [c], j);
      assert s[j] == s[j..j + 1][0];
    }
  }

  /** Without an occurrence of the separator, `split` gives the whole string. */
  lemma SplitWithoutSeparator(s: string, sep: string)
    requires sep != [] && !Contains(s, sep)
    ensures Split(s, sep) == [s]
  {
  }

  /** When the first occurrence of `sep` follows `a`, `split` cuts there first. */
  lemma SplitAtFirst(a: string, sep: string, b: string)
    requires sep != []
    requires forall j: nat :: j < |a| ==> !OccursAt(a + sep + b, sep, j)
    ensures Split(a + sep + b, sep) == [a] + Split(b, sep)
  {
    var s := a + sep + b;
    assert s[|a|..|a| + |sep|] == sep;
    assert OccursAt(s, sep, |a|);
    assert Find(s, sep) == Some(|a|);
    assert s[|a| + |sep|..] == b;
    assert s[..|a|] == a;
  }

  lemma {:induction false} JoinContainsParts(parts: seq<string>, sep: string, k: nat, c: char)
    requires k < |parts| && c in parts[k]
    ensures c in Join(parts, sep)
    decreases |parts|
  {
    if k > 0 {
      JoinContainsParts(parts[1..], sep, k - 1, c);
    }
  }

  /** Every character of a piece of `s.split(sep)` is a character of `s`. */
  lemma SplitPieceChars(s: string, sep: string, k: nat, c: char)
    requires sep != [] && k < |Split(s, sep)| && c in Split(s, sep)[k]
    ensures c in s
  {
    JoinContainsParts(Split(s, sep), sep, k, c);
  }

  /** The first piece of a split on one character lacks that character and draws only on `s`. */
  lemma FirstPieceChars(s: string, c: char)
    ensures c !in Split(s, [c])[0]
    ensures forall x :: x in Split(s, [c])[0] ==> x in s
  {
    ContainsChar(Split(s, [c])[0], c);
    forall x | x in Split(s, [c])[0]
      ensures x in s
    {
      SplitPieceChars(s, [c], 0, x);
    }
  }

  /** A string lacking the first character of `sub` does not contain `sub`. */
  lemma LeadCharAbsent(s: string, sub: string)
    requires sub != [] && sub[0] !in s
    ensures !Contains(s, sub)
  {
  }

  /** `split` yields a single piece exactly when the separator does not occur. */
  lemma SplitSingleIffAbsent(s: string, sep: string)
    requires sep != []
    ensures |Split(s, sep)| == 1 <==> !Contains(s, sep)
  {
    if !Contains(s, sep) {
      SplitWithoutSeparator(s, sep);
    }
  }

  /** `s.split(sep)[k]`, or `None` where Python raises `IndexError`. */
  function SplitPiece(s: string, sep: string, k: nat): Option<string>
    requires sep != []
  {
    var parts := Split(s, sep);
    if k < |parts| then Some(parts[k]) else None
  }

  /** `s.split(c)[1]` exists exactly when `c` occurs in `s`. */
  lemma SecondPieceIffChar(s: string, c: char)
    ensures SplitPiece(s, [c], 1).None? <==> c !in s
  {
    SplitSingleIffAbsent(s, [c]);
    ContainsChar(s, c);
  }

  /** `s.replace(target, replacement)` for a non-empty `target`. */
  function Replace(s: string, target: string, replacement: string): (r: string)
    requires target != []
    ensures !Contains(s, target) ==> r == s
  {
    SplitSingleIffAbsent(s, target);
    Join(Split(s, target), replacement)
  }

  /** Every occurrence of `c` deleted. */
  function DeleteChar(s: string, c: char): (r: string)
    ensures c !in r
    ensures forall x :: x in r <==> x in s && x != c
    decreases |s|
  {
    if s == [] then []
    else (if s[0] == c then [] else [s[0]]) + DeleteChar(s[1..], c)
  }

  lemma {:induction false} DeleteCharAppend(a: string, b: string, c: char)
    ensures DeleteChar(a + b, c) == DeleteChar(a, c) + DeleteChar(b, c)
    decreases |a|
  {
    if a != [] {
      assert (a + b)[1..] == a[1..] + b;
      DeleteCharAppend(a[1..], b, c);
    } else {
      assert a + b == b;
    }
  }

  lemma {:induction false} DeleteCharAbsent(s: string, c: char)
    requires c !in s
    ensures DeleteChar(s, c) == s
    decreases |s|
  {
    if s != [] {
      DeleteCharAbsent(s[1..], c);
    }
  }

  /** `s.replace(c, '')` deletes every occurrence of the character `c`. */
  lemma {:induction false} ReplaceCharDeletes(s: string, c: char)
    ensures Replace(s, [c], "") == DeleteChar(s, c)
    decreases |s|
  {
    match Find(s, [c])
    case None =>
      NoCharBefore(s, c, |s|);
      assert s[..|s|] == s;
      DeleteCharAbsent(s, c);
    case Some(i) =>
      var tail := s[i + 1..];
      assert Split(s, [c]) == [s[..i]] + Split(tail, [c]);
      JoinEmptyStep(s[..i], Split(tail, [c]));
      ReplaceCharDeletes(tail, c);
      NoCharBefore(s, c, i);
      DeleteCharAbsent(s[..i], c);
      DeleteCharSplice(s, i, c);
  }

  /** No occurrence of `[c]` before `i` means `c` is not in `s[..i]`. */
  lemma NoCharBefore(s: string, c: char, i: nat)
    requires i <= |s|
    requires forall j: nat :: j < i ==> !OccursAt(s, [c], j)
    ensures c !in s[..i]
  {
    forall k | 0 <= k < i ensures s[k] != c {
      assert !OccursAt(s, [c], k);
      assert s[k..k + 1] == [s[k]];
    }
  }

  /** Joining with the empty separator concatenates the first piece and the rest. */
  lemma JoinEmptyStep(head: string, rest: seq<string>)
    requires |rest| >= 1
    ensures Join([head] + rest, "") == head + Join(rest, "")
  {
    var parts := [head] + rest;
    assert parts[0] == head && parts[1..] == rest;
    assert Join(parts, "") == head + "" + Join(rest, "");
    assert head + "" == head;
  }

  /** Deleting `c` around an occurrence at `i` deletes it on both sides. */
  lemma DeleteCharSplice(s: string, i: nat, c: char)
    requires i < |s| && s[i] == c
    ensures DeleteChar(s, c) == DeleteChar(s[..i], c) + DeleteChar(s[i + 1..], c)
  {
    assert s == s[..i] + [c] + s[i + 1..];
    DeleteCharAppend(s[..i] + [c], s[i + 1..], c);
    DeleteCharAppend(s[..i], [c], c);
  }

  /** `s.endswith(suffix)` */
  predicate EndsWith(s: string, suffix: string) {
    |suffix| <= |s| && s[|s| - |suffix|..] == suffix
  }

  // ---------------------------------------------------------------------
  // Integers: int(text) and str(n)
  // ---------------------------------------------------------------------

  predicate IsDigit(c: char) {
    '0' <= c <= '9'
  }

  predicate AllDigits(s: string) {
    forall k :: 0 <= k < |s| ==> IsDigit(s[k])
  }

  function DigitValue(c: char): nat
    requires IsDigit(c)
  {
    c as int - '0' as int
  }

  function DigitChar(d: nat): (c: char)
    requires d < 10
    ensures IsDigit(c) && DigitValue(c) == d
  {
    ('0' as int + d) as char
  }

  /** The value of a string of decimal digits, most significant first. */
  function DigitsValue(s: string): nat
    requires AllDigits(s)
    decreases |s|
  {
    if s == [] then 0 else DigitsValue(s[..|s| - 1]) * 10 + DigitValue(s[|s| - 1])
  }

  /** `str(n)` for `n >= 0`: the shortest decimal numeral of `n`. */
  function NatToString(n: nat): (r: string)
    ensures |r| >= 1 && AllDigits(r) && DigitsValue(r) == n
    ensures n > 0 ==> r[0] != '0'
    decreases n
  {
    if n < 10 then [DigitChar(n)]
    else
      var r := NatToString(n / 10) + [DigitChar(n % 10)];
      assert r[..|r| - 1] == NatToString(n / 10);
      r
  }

  /** `str(n)`: a minus sign before negative numbers. */
  function IntToString(n: int): string {
    if n < 0 then "-" + NatToString(-n) else NatToString(n)
  }

  /**
   * `int(text)`: surrounding whitespace ignored, an optional sign, then one or
   * more decimal digits; `None` where Python raises `ValueError`.
   */
  function ParseInt(text: string): (r: Option<int>)
    ensures Strip(text) == [] ==> r.None?
    ensures Strip(text) != [] && AllDigits(Strip(text)) ==> r == Some(DigitsValue(Strip(text)) as int)
    ensures r.Some? ==> forall k :: 1 <= k < |Strip(text)| ==> IsDigit(Strip(text)[k])
  {
    var t := Strip(text);
    if |t| > 1 && (t[0] == '-' || t[0] == '+') && AllDigits(t[1..]) then
      Some(if t[0] == '-' then -(DigitsValue(t[1..]) as int) else DigitsValue(t[1..]))
    else if |t| > 0 && AllDigits(t) then Some(DigitsValue(t))
    else None
  }

  /** `int(s.strip()) == int(s)`: `int` ignores surrounding whitespace itself. */
  lemma ParseIntIgnoresStrip(s: string)
    ensures ParseInt(Strip(s)) == ParseInt(s)
  {
    var t := Strip(s);
    assert t == StripWhile(s, IsSpace);
    StripUnchanged(t);
  }

  /** `int(str(n)) == n`: the numeral Python prints for an integer reads back as that integer. */
  lemma ParseIntOfIntToString(n: int)
    ensures ParseInt(IntToString(n)) == Some(n)
  {
    var s := IntToString(n);
    var d := NatToString(if n < 0 then -n else n);
    assert s[|s| - 1] == d[|d| - 1];
    DigitNotSpace(s[|s| - 1]);
    if n < 0 {
      assert s[0] == '-';
      assert s[1..] == d;
    } else {
      DigitNotSpace(s[0]);
    }
    StripUnchanged(s);
  }

  /** An integer numeral never contains whitespace, `$`, `,` or `.`. */
  lemma IntToStringChars(n: int)
    ensures forall k :: 0 <= k < |IntToString(n)| ==> IsDigit(IntToString(n)[k]) || (k == 0 && IntToString(n)[k] == '-')
    ensures |IntToString(n)| >= 1 && IsDigit(IntToString(n)[|IntToString(n)| - 1])
  {
    if n < 0 {
      assert IntToString(n)[1..] == NatToString(-n);
    }
  }

  // ---------------------------------------------------------------------
  // Title case
  // ---------------------------------------------------------------------

  /** Upper-case letters: ASCII and the Latin-1 letters Spanish text uses. */
  predicate IsUpper(c: char) {
    'A' <= c <= 'Z' || ('\U{c0}' <= c <= '\U{de}' && c != '\U{d7}')
  }

  /** Lower-case letters: ASCII and the Latin-1 letters Spanish text uses. */
  predicate IsLower(c: char) {
    'a' <= c <= 'z' || ('\U{e0}' <= c <= '\U{fe}' && c != '\U{f7}')
  }

  predicate IsCased(c: char) {
    IsUpper(c) || IsLower(c)
  }

  function ToUpper(c: char): (u: char)
    ensures IsCased(u) == IsCased(c)
    ensures IsLower(c) ==> IsUpper(u)
    ensures !IsLower(c) ==> u == c
  {
    if IsLower(c) then (c as int - 32) as char else c
  }

  function ToLower(c: char): (l: char)
    ensures IsCased(l) == IsCased(c)
    ensures IsUpper(c) ==> IsLower(l)
    ensures !IsUpper(c) ==> l == c
  {
    if IsUpper(c) then (c as int + 32) as char else c
  }

  /**
   * Python's `title()` from a position whose predecessor was (`prevCased`) or
   * was not a cased letter: a cased letter after a cased letter is lowered,
   * any other character is raised; uncased characters are unchanged.
   */
  function TitleAfter(s: string, prevCased: bool): (r: string)
    ensures |r| == |s|
    ensures forall i :: 0 <= i < |s| ==>
      r[i] == if (if i == 0 then prevCased else IsCased(s[i - 1])) then ToLower(s[i]) else ToUpper(s[i])
    decreases |s|
  {
    if s == [] then []
    else [if prevCased then ToLower(s[0]) else ToUpper(s[0])] + TitleAfter(s[1..], IsCased(s[0]))
  }

  /**
   * `s.title()`: a character is upper-cased when the character before it is
   * not cased (or it is the first) and lower-cased when it is.
   */
  function Title(s: string): (r: string)
    ensures |r| == |s|
    ensures forall i :: 0 <= i < |s| ==> r[i] == if i > 0 && IsCased(s[i - 1]) then ToLower(s[i]) else ToUpper(s[i])
  {
    TitleAfter(s, false)
  }

  lemma {:induction false} TitleAfterIdempotent(s: string, prevCased: bool)
    ensures TitleAfter(TitleAfter(s, prevCased), prevCased) == TitleAfter(s, prevCased)
    decreases |s|
  {
    if s != [] {
      var t := TitleAfter(s, prevCased);
      assert t[1..] == TitleAfter(s[1..], IsCased(s[0]));
      assert IsCased(t[0]) == IsCased(s[0]);
      TitleAfterIdempotent(s[1..], IsCased(s[0]));
    }
  }

  /** Title-casing an already title-cased string changes nothing. */
  lemma TitleIdempotent(s: string)
    ensures Title(Title(s)) == Title(s)
  {
    TitleAfterIdempotent(s, false);
  }

  lemma {:induction false} TitleAfterKeepsUncased(s: string, prevCased: bool, k: nat)
    requires k < |s| && !IsCased(s[k])
    ensures TitleAfter(s, prevCased)[k] == s[k]
    decreases |s|
  {
    if k > 0 {
      TitleAfterKeepsUncased(s[1..], IsCased(s[0]), k - 1);
    }
  }

  /** Characters that are not letters (digits, spaces, `/`, `+`) pass through `title()` unchanged. */
  lemma TitleKeepsUncased(s: string, k: nat)
    requires k < |s| && !IsCased(s[k])
    ensures Title(s)[k] == s[k]
  {
    TitleAfterKeepsUncased(s, false, k);
  }
}
