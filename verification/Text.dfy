/**
 Byte strings, as the signed formats see them.

 Rust's `&[u8]` and `&str` are both a Dafny string holding one char per byte, so a `&str` is its
 UTF-8 encoding; `Utf8` says which byte strings are one. Everything the codecs rely on is here:
 finding a separator, reading lines, decimal numbers, white space and SLIM names.
 */
module Text {
  import opened Wrappers

  type Bytes = string

  /** Every char stands for one byte. */
  predicate Octets(s: Bytes) {
    forall k :: 0 <= k < |s| ==> s[k] as int <= 0xFF
  }

  /** `to_ascii_lowercase`, one character. */
  function Lower(c: char): char {
    if 'A' <= c <= 'Z' then c + 32 as char else c
  }

  const U64_LIMIT: nat := 0x1_0000_0000_0000_0000

  lemma Assoc(a: Bytes, b: Bytes, c: Bytes)
    ensures a + b + c == a + (b + c)
  {
  }

  // --- Separators --------------------------------------------------------------------------

  /** The first position of `c` in `s`, or the length of `s` when it does not occur. */
  function IndexOf(s: Bytes, c: char): (at: nat)
    ensures at <= |s|
    ensures at < |s| ==> s[at] == c
    ensures forall k :: 0 <= k < at ==> s[k] != c
  {
    if s == "" || s[0] == c then 0
    else 1 + IndexOf(s[1..], c)
  }

  lemma {:induction false} IndexOfAppend(a: Bytes, c: char, rest: Bytes)
    requires c !in a
    ensures IndexOf(a + [c] + rest, c) == |a|
  {
    var s := a + [c] + rest;
    assert s[|a|] == c;
    assert forall k :: 0 <= k < |a| ==> s[k] == a[k];
  }

  /** A separator that occurs in neither first part pins both parts down. */
  lemma {:induction false} CutAtFirst(a: Bytes, x: Bytes, b: Bytes, y: Bytes, c: char)
    requires c !in a && c !in b
    requires a + [c] + x == b + [c] + y
    ensures a == b && x == y
  {
    var s, t := a + [c] + x, b + [c] + y;
    IndexOfAppend(a, c, x);
    IndexOfAppend(b, c, y);
    assert a == s[..|a|] && b == t[..|b|];
    assert x == s[|a| + 1..] && y == t[|b| + 1..];
  }

  /** The mirror image: a separator in neither last part. */
  lemma {:induction false} CutAtLast(x: Bytes, a: Bytes, y: Bytes, b: Bytes, c: char)
    requires c !in a && c !in b
    requires x + [c] + a == y + [c] + b
    ensures x == y && a == b
  {
    var s, t := x + [c] + a, y + [c] + b;
    assert s[|x|] == c && t[|y|] == c;
    assert forall k :: |x| < k < |s| ==> s[k] == a[k - |x| - 1];
    assert forall k :: |y| < k < |t| ==> t[k] == b[k - |y| - 1];
    assert x == s[..|x|] && y == t[..|y|];
    assert a == s[|x| + 1..] && b == t[|y| + 1..];
  }

  predicate StartsWith(s: Bytes, prefix: Bytes) {
    |prefix| <= |s| && s[..|prefix|] == prefix
  }

  /** `sub` occurs in `s` at position `at`. */
  predicate OccursAt(s: Bytes, sub: Bytes, at: nat) {
    at + |sub| <= |s| && s[at..at + |sub|] == sub
  }

  ghost predicate Occurs(s: Bytes, sub: Bytes) {
    exists at: nat :: OccursAt(s, sub, at)
  }

  /** `str::find`: the first occurrence of `sub` at or after `from`. */
  function FindFrom(s: Bytes, sub: Bytes, from: nat): (r: Option<nat>)
    requires from <= |s|
    ensures r.Some? ==> from <= r.value && OccursAt(s, sub, r.value)
    ensures r.Some? ==> forall k: nat :: from <= k < r.value ==> !OccursAt(s, sub, k)
    ensures r.None? ==> forall k: nat :: from <= k ==> !OccursAt(s, sub, k)
    decreases |s| - from
  {
    if OccursAt(s, sub, from) then Some(from)
    else if from == |s| then None
    else FindFrom(s, sub, from + 1)
  }

  /** `str::split`, on one character: always at least one part. */
  function Split(s: Bytes, c: char): (parts: seq<Bytes>)
    ensures |parts| >= 1
    decreases |s|
  {
    var at := IndexOf(s, c);
    if at == |s| then [s] else [s[..at]] + Split(s[at + 1..], c)
  }

  /** Splitting undoes joining, when no part holds the separator. */
  lemma {:induction false} SplitTagged(sep: char, first: Bytes, parts: seq<Bytes>)
    requires sep !in first && forall k :: 0 <= k < |parts| ==> sep !in parts[k]
    ensures Split(first + Tagged(sep, parts), sep) == [first] + parts
    decreases |parts|
  {
    if parts == [] {
      assert first + Tagged(sep, parts) == first;
    } else {
      var rest := parts[0] + Tagged(sep, parts[1..]);
      assert Tagged(sep, parts) == [sep] + rest;
      assert first + Tagged(sep, parts) == first + [sep] + rest;
      IndexOfAppend(first, sep, rest);
      assert (first + [sep] + rest)[..|first|] == first;
      assert (first + [sep] + rest)[|first| + 1..] == rest;
      SplitTagged(sep, parts[0], parts[1..]);
      assert parts == [parts[0]] + parts[1..];
    }
  }

  function TotalLength(parts: seq<Bytes>): nat {
    if parts == [] then 0 else |parts[0]| + TotalLength(parts[1..])
  }

  lemma {:induction false} TaggedLength(sep: char, parts: seq<Bytes>)
    ensures |Tagged(sep, parts)| == |parts| + TotalLength(parts)
  {
    if parts != [] {
      TaggedLength(sep, parts[1..]);
    }
  }

  /** Every character other than the separator sits in one of the parts. */
  lemma {:induction false} SplitCovers(s: Bytes, c: char, d: char)
    requires c != d
    requires forall p :: p in Split(s, c) ==> d !in p
    ensures d !in s
    decreases |s|
  {
    var at := IndexOf(s, c);
    assert s[..at] in Split(s, c) by {
      assert Split(s, c)[0] == s[..at];
    }
    if at < |s| {
      var rest := Split(s[at + 1..], c);
      forall p | p in rest ensures d !in p {
        assert p in [s[..at]] + rest;
      }
      SplitCovers(s[at + 1..], c, d);
      assert s == s[..at] + [c] + s[at + 1..];
    } else {
      assert s[..at] == s;
    }
  }

  /** Each part behind a separator: what `join` appends to its first element. */
  function Tagged(sep: char, parts: seq<Bytes>): Bytes {
    if parts == [] then "" else [sep] + parts[0] + Tagged(sep, parts[1..])
  }

  lemma {:induction false} TaggedAppend(sep: char, parts: seq<Bytes>, last: Bytes)
    ensures Tagged(sep, parts + [last]) == Tagged(sep, parts) + [sep] + last
  {
    if parts == [] {
      assert parts + [last] == [last];
      assert Tagged(sep, [last][1..]) == "";
    } else {
      assert (parts + [last])[1..] == parts[1..] + [last];
      TaggedAppend(sep, parts[1..], last);
    }
  }

  /** Separated parts can be told apart as long as at most one of them, always the same, may hold
      the separator. */
  lemma {:induction false} TaggedInjective(sep: char, a: seq<Bytes>, b: seq<Bytes>, hole: nat)
    requires |a| == |b| && Tagged(sep, a) == Tagged(sep, b)
    requires forall k :: 0 <= k < |a| && k != hole ==> sep !in a[k] && sep !in b[k]
    ensures a == b
    decreases |a|
  {
    if |a| == 0 {
    } else if |a| == 1 {
      assert Tagged(sep, a) == [sep] + a[0] && Tagged(sep, b) == [sep] + b[0];
      assert a[0] == Tagged(sep, a)[1..] && b[0] == Tagged(sep, b)[1..];
    } else if hole > 0 {
      var x, y := Tagged(sep, a[1..]), Tagged(sep, b[1..]);
      assert x == [sep] + x[1..] && y == [sep] + y[1..];
      assert a[0] + [sep] + x[1..] == Tagged(sep, a)[1..];
      assert b[0] + [sep] + y[1..] == Tagged(sep, b)[1..];
      CutAtFirst(a[0], x[1..], b[0], y[1..], sep);
      TaggedInjective(sep, a[1..], b[1..], hole - 1);
    } else {
      var n := |a| - 1;
      assert a == a[..n] + [a[n]] && b == b[..n] + [b[n]];
      TaggedAppend(sep, a[..n], a[n]);
      TaggedAppend(sep, b[..n], b[n]);
      CutAtLast(Tagged(sep, a[..n]), a[n], Tagged(sep, b[..n]), b[n], sep);
      TaggedInjective(sep, a[..n], b[..n], hole);
    }
  }

  /** The same behind two leading words without separators. */
  lemma {:induction false} TaggedBehindWord(sep: char, d: Bytes, a: seq<Bytes>, e: Bytes, b: seq<Bytes>)
    requires sep !in d && sep !in e && a != [] && b != []
    requires d + Tagged(sep, a) == e + Tagged(sep, b)
    ensures d == e && Tagged(sep, a) == Tagged(sep, b)
  {
    var x, y := Tagged(sep, a), Tagged(sep, b);
    assert x == [sep] + x[1..] && y == [sep] + y[1..];
    assert d + x == d + [sep] + x[1..];
    assert e + y == e + [sep] + y[1..];
    CutAtFirst(d, x[1..], e, y[1..], sep);
  }

  // --- Lines -------------------------------------------------------------------------------

  /** A line in front of what follows it. */
  function Line(line: Bytes, rest: Bytes): Bytes {
    line + "\n" + rest
  }

  /** The bytes up to the first newline, and the bytes after it; None when there is no newline. */
  function CutLine(s: Bytes): (r: Option<(Bytes, Bytes)>)
    ensures r.Some? ==> s == Line(r.value.0, r.value.1) && '\n' !in r.value.0
    ensures r.None? ==> '\n' !in s
  {
    var at := IndexOf(s, '\n');
    if at == |s| then None else Some((s[..at], s[at + 1..]))
  }

  lemma {:induction false} CutLineOf(line: Bytes, rest: Bytes)
    requires '\n' !in line
    ensures CutLine(Line(line, rest)) == Some((line, rest))
  {
    IndexOfAppend(line, '\n', rest);
    assert line + ['\n'] + rest == Line(line, rest);
    assert Line(line, rest)[..|line|] == line && Line(line, rest)[|line| + 1..] == rest;
  }

  lemma {:induction false} LineAppend(line: Bytes, rest: Bytes, more: Bytes)
    ensures Line(line, rest) + more == Line(line, rest + more)
  {
    assert line + "\n" + rest + more == line + "\n" + (rest + more);
  }

  /** `str::lines().next()`: the line, and what the iterator has left. A carriage return goes
      only together with the newline it precedes. */
  function NextLine(rest: Bytes): (r: Option<(Bytes, Bytes)>)
    ensures r.Some? ==> |r.value.1| < |rest|
  {
    var at := IndexOf(rest, '\n');
    if rest == "" then None
    else if at == |rest| then Some((rest, ""))
    else if at > 0 && rest[at - 1] == '\r' then Some((rest[..at - 1], rest[at + 1..]))
    else Some((rest[..at], rest[at + 1..]))
  }

  /** A value that survives being written on a line of its own. */
  predicate SingleLine(s: Bytes) {
    '\n' !in s && (s == "" || s[|s| - 1] != '\r')
  }

  lemma {:induction false} NextLineReads(line: Bytes, rest: Bytes)
    requires SingleLine(line)
    ensures NextLine(line + "\n" + rest) == Some((line, rest))
  {
    IndexOfAppend(line, '\n', rest);
    var s := line + ['\n'] + rest;
    assert s == line + "\n" + rest;
    assert s[..|line|] == line && s[|line| + 1..] == rest;
  }

  // --- Decimal numbers ---------------------------------------------------------------------

  predicate IsDigit(c: char) {
    '0' <= c <= '9'
  }

  predicate AllDigits(s: Bytes) {
    forall k :: 0 <= k < |s| ==> IsDigit(s[k])
  }

  /** `u64::to_string`. */
  function Decimal(n: nat): (s: Bytes)
    ensures s != "" && AllDigits(s)
  {
    var last := ['0' + (n % 10) as char];
    if n < 10 then last else Decimal(n / 10) + last
  }

  function Value(s: Bytes): nat
    requires AllDigits(s)
  {
    if s == "" then 0 else 10 * Value(s[..|s| - 1]) + (s[|s| - 1] - '0') as nat
  }

  /** `parse::<uN>()` for numbers below `limit`: one leading `+` is allowed, so are leading zeros. */
  function ParseUnsigned(s: Bytes, limit: nat): Option<nat> {
    var digits := if s != "" && s[0] == '+' then s[1..] else s;
    if digits == "" || !AllDigits(digits) || Value(digits) >= limit then None
    else Some(Value(digits))
  }

  lemma {:induction false} ValueOfDecimal(n: nat)
    ensures Value(Decimal(n)) == n
  {
    var s := Decimal(n);
    if n >= 10 {
      ValueOfDecimal(n / 10);
      assert s[..|s| - 1] == Decimal(n / 10);
    }
  }

  lemma {:induction false} ParseDecimal(n: nat, limit: nat)
    requires n < limit
    ensures ParseUnsigned(Decimal(n), limit) == Some(n)
  {
    ValueOfDecimal(n);
    assert IsDigit(Decimal(n)[0]);
  }

  lemma {:induction false} DecimalInjective(m: nat, n: nat)
    requires Decimal(m) == Decimal(n)
    ensures m == n
  {
    ValueOfDecimal(m);
    ValueOfDecimal(n);
  }

  function Pow10(k: nat): nat {
    if k == 0 then 1 else 10 * Pow10(k - 1)
  }

  lemma {:induction false} DecimalLength(n: nat, k: nat)
    requires k >= 1 && n < Pow10(k)
    ensures |Decimal(n)| <= k
  {
    if n >= 10 {
      DecimalLength(n / 10, k - 1);
    }
  }

  lemma {:induction false} DecimalU64Length(n: nat)
    requires n < U64_LIMIT
    ensures |Decimal(n)| <= 20
  {
    assert Pow10(5) == 100000;
    assert Pow10(10) == 10000000000;
    assert Pow10(15) == 1000000000000000;
    assert Pow10(20) == 100000000000000000000;
    DecimalLength(n, 20);
  }

  // --- UTF-8 (RFC 3629, section 4) -----------------------------------------------------------

  predicate Tail(c: char) {
    0x80 <= c as int <= 0xBF
  }

  /** The length of the well-formed encoding `s` starts with, 0 when there is none. */
  function Utf8Step(s: Bytes): (n: nat)
    ensures n <= |s| && n <= 4
  {
    if s == "" then 0 else
    var c := s[0] as int;
    if c <= 0x7F then 1
    else if 0xC2 <= c <= 0xDF then
      if |s| >= 2 && Tail(s[1]) then 2 else 0
    else if 0xE0 <= c <= 0xEF then
      if |s| >= 3 && Tail(s[1]) && Tail(s[2])
         && (c == 0xE0 ==> s[1] as int >= 0xA0) && (c == 0xED ==> s[1] as int <= 0x9F)
      then 3 else 0
    else if 0xF0 <= c <= 0xF4 then
      if |s| >= 4 && Tail(s[1]) && Tail(s[2]) && Tail(s[3])
         && (c == 0xF0 ==> s[1] as int >= 0x90) && (c == 0xF4 ==> s[1] as int <= 0x8F)
      then 4 else 0
    else 0
  }

  /** `String::from_utf8` accepts exactly these byte strings. */
  predicate Utf8(s: Bytes)
    decreases |s|
  {
    s == "" || (Utf8Step(s) > 0 && Utf8(s[Utf8Step(s)..]))
  }

  lemma {:induction false} Utf8Append(a: Bytes, b: Bytes)
    requires Utf8(a)
    ensures Utf8(a + b) <==> Utf8(b)
    decreases |a|
  {
    if a == "" {
      assert a + b == b;
    } else {
      var n := Utf8Step(a);
      assert Utf8Step(a + b) == n;
      assert (a + b)[n..] == a[n..] + b;
      Utf8Append(a[n..], b);
    }
  }

  predicate Ascii(s: Bytes) {
    forall k :: 0 <= k < |s| ==> s[k] as int <= 0x7F
  }

  lemma {:induction false} AsciiIsUtf8(s: Bytes)
    requires Ascii(s)
    ensures Utf8(s)
    decreases |s|
  {
    if s != "" {
      assert s[0] as int <= 0x7F;
      AsciiIsUtf8(s[1..]);
    }
  }

  // --- White space ---------------------------------------------------------------------------

  /** The length of the Unicode White_Space character `s` starts with, 0 when it starts with none. */
  function WhiteStep(s: Bytes): (n: nat)
    ensures n <= |s| && n <= 3
  {
    if s == "" then 0 else
    var c := s[0] as int;
    if 0x09 <= c <= 0x0D || c == 0x20 then 1
    else if |s| >= 2 && c == 0xC2 && s[1] as int in {0x85, 0xA0} then 2
    else if |s| < 3 then 0
    else
      var d, e := s[1] as int, s[2] as int;
      if c == 0xE1 && d == 0x9A && e == 0x80 then 3
      else if c == 0xE2 && d == 0x80 && (0x80 <= e <= 0x8A || e in {0xA8, 0xA9, 0xAF}) then 3
      else if c == 0xE2 && d == 0x81 && e == 0x9F then 3
      else if c == 0xE3 && d == 0x80 && e == 0x80 then 3
      else 0
  }

  /** `s.trim().is_empty()`. */
  predicate Blank(s: Bytes)
    decreases |s|
  {
    s == "" || (WhiteStep(s) > 0 && Blank(s[WhiteStep(s)..]))
  }

  // --- Trimming ------------------------------------------------------------------------------

  function TrimStart(s: Bytes): Bytes
    decreases |s|
  {
    if WhiteStep(s) > 0 then TrimStart(s[WhiteStep(s)..]) else s
  }

  /** The length of the white-space character `s` ends with, 0 when it ends with none. */
  function WhiteEnd(s: Bytes): (n: nat)
    ensures n <= |s|
  {
    if |s| >= 1 && WhiteStep(s[|s| - 1..]) == 1 then 1
    else if |s| >= 2 && WhiteStep(s[|s| - 2..]) == 2 then 2
    else if |s| >= 3 && WhiteStep(s[|s| - 3..]) == 3 then 3
    else 0
  }

  function TrimEnd(s: Bytes): Bytes
    decreases |s|
  {
    if WhiteEnd(s) > 0 then TrimEnd(s[..|s| - WhiteEnd(s)]) else s
  }

  /** `str::trim`. */
  function Trim(s: Bytes): Bytes {
    TrimEnd(TrimStart(s))
  }

  lemma {:induction false} TrimStartStops(s: Bytes)
    ensures WhiteStep(TrimStart(s)) == 0
    decreases |s|
  {
    if WhiteStep(s) > 0 {
      TrimStartStops(s[WhiteStep(s)..]);
    }
  }

  lemma {:induction false} TrimEndStops(s: Bytes)
    ensures var t := TrimEnd(s); |t| <= |s| && t == s[..|t|] && WhiteEnd(t) == 0
    decreases |s|
  {
    if WhiteEnd(s) > 0 {
      TrimEndStops(s[..|s| - WhiteEnd(s)]);
    }
  }

  lemma {:induction false} WhiteStepOfPrefix(s: Bytes, n: nat)
    requires n <= |s| && WhiteStep(s) == 0
    ensures WhiteStep(s[..n]) == 0
  {
  }

  /** Trimming leaves nothing to trim. */
  lemma {:induction false} TrimTrimmed(s: Bytes)
    ensures Trim(Trim(s)) == Trim(s)
  {
    TrimStartStops(s);
    TrimEndStops(TrimStart(s));
    WhiteStepOfPrefix(TrimStart(s), |Trim(s)|);
    NothingToTrim(Trim(s));
  }

  /** A text that needs no trimming. */
  lemma {:induction false} NothingToTrim(s: Bytes)
    requires WhiteStep(s) == 0 && WhiteEnd(s) == 0
    ensures Trim(s) == s
  {
  }

  lemma EndsVisibly(s: Bytes)
    requires s != "" && ' ' < s[|s| - 1] <= '~'
    ensures WhiteEnd(s) == 0
  {
  }

  lemma NotAllWhite(t: Bytes, k: nat)
    requires k < |t| <= 3 && ' ' < t[k] <= '~'
    ensures WhiteStep(t) != |t|
  {
  }

  /** What stands in front of a text, if it ends visibly, is no matter for how the whole ends. */
  lemma WhiteEndBehind(front: Bytes, s: Bytes)
    requires front != "" && ' ' < front[|front| - 1] <= '~'
    ensures WhiteEnd(front + s) == WhiteEnd(s)
  {
    hide WhiteStep;
    var t := front + s;
    assert t[|front| - 1] == front[|front| - 1];
    SameEnd(front, s, 1);
    SameEnd(front, s, 2);
    SameEnd(front, s, 3);
  }

  lemma SameEnd(front: Bytes, s: Bytes, n: nat)
    requires front != "" && ' ' < front[|front| - 1] <= '~' && 1 <= n <= 3
    ensures var t := front + s;
            |t| >= n && WhiteStep(t[|t| - n..]) == n <==> |s| >= n && WhiteStep(s[|s| - n..]) == n
  {
    hide WhiteStep;
    var t := front + s;
    if |s| >= n {
      assert t[|t| - n..] == s[|s| - n..];
    } else if |t| >= n {
      var k := n - |s| - 1;
      assert t[|t| - n..][k] == front[|front| - 1];
      NotAllWhite(t[|t| - n..], k);
    }
  }

  /** White space at no position. */
  predicate NoWhite(s: Bytes) {
    forall k :: 0 <= k < |s| ==> WhiteStep(s[k..]) == 0
  }

  lemma NothingToTrimInNoWhite(s: Bytes)
    requires NoWhite(s)
    ensures Trim(s) == s
  {
    if s != "" {
      assert s[0..] == s;
    }
    NothingToTrim(s);
  }

  lemma NoWhiteWithin(s: Bytes, from: nat, to: nat)
    requires NoWhite(s) && from <= to <= |s|
    ensures NoWhite(s[from..to])
  {
    forall k | 0 <= k < to - from ensures WhiteStep(s[from..to][k..]) == 0 {
      assert s[from..to][k..] == s[from + k..][..to - from - k];
      WhiteStepOfPrefix(s[from + k..], to - from - k);
    }
  }

  predicate Visible(s: Bytes) {
    forall k :: 0 <= k < |s| ==> ' ' < s[k] <= '~'
  }

  lemma NoWhiteBehind(word: Bytes, s: Bytes)
    requires Visible(word) && NoWhite(s)
    ensures NoWhite(word + s)
  {
    forall k | 0 <= k < |word + s| ensures WhiteStep((word + s)[k..]) == 0 {
      if k < |word| {
        assert (word + s)[k..][0] == word[k];
      } else {
        assert (word + s)[k..] == s[k - |word|..];
      }
    }
  }

  lemma WhiteStepBefore(s: Bytes, rest: Bytes)
    requires s != "" && WhiteStep(s) == 0 && (rest == "" || ' ' < rest[0] <= '~')
    ensures WhiteStep(s + rest) == 0
  {
  }

  /** White space cannot arise where a text meets a visible character. */
  lemma NoWhiteJoined(s: Bytes, rest: Bytes)
    requires NoWhite(s) && NoWhite(rest) && (rest == "" || ' ' < rest[0] <= '~')
    ensures NoWhite(s + rest)
  {
    hide WhiteStep;
    forall k | 0 <= k < |s + rest| ensures WhiteStep((s + rest)[k..]) == 0 {
      if k < |s| {
        assert (s + rest)[k..] == s[k..] + rest;
        WhiteStepBefore(s[k..], rest);
      } else {
        assert (s + rest)[k..] == rest[k - |s|..];
      }
    }
  }

  // --- Names ---------------------------------------------------------------------------------

  predicate NamePart(p: Bytes) {
    p != "" && '\0' !in p && forall k :: 0 <= k < |p| ==> WhiteStep(p[k..]) == 0
  }

  /** `check_name`: `org/namespace/name`, no part empty, no white space and no NUL. */
  predicate CheckName(name: Bytes) {
    var parts := Split(name, '/');
    |parts| == 3 && forall p :: p in parts ==> NamePart(p)
  }

  lemma {:induction false} CheckedNameIsPlain(name: Bytes)
    requires CheckName(name)
    ensures name != "" && '\0' !in name && '\n' !in name
  {
    var parts := Split(name, '/');
    forall p | p in parts ensures '\n' !in p {
      forall k | 0 <= k < |p| ensures p[k] != '\n' {
        assert p[k] == p[k..][0];
      }
    }
    SplitCovers(name, '/', '\0');
    SplitCovers(name, '/', '\n');
    assert Split("", '/') == [""];
  }
}
