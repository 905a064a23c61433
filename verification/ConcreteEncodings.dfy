/**
 Encodings that keep every law this project assumes of its codecs: base64 as RFC 4648 defines it, a
 JSON writer and a record writer.

 Decoders of the writers are chosen, not computed: a text is read as the one value written as it.
 */
module ConcreteEncodings {
  import opened Wrappers
  import opened Text
  import opened Identity
  import opened Json
  import opened Credential
  import CredentialVault

  // --- Base64 (RFC 4648, sections 4 and 5) ---------------------------------------------------

  /** The digit for six bits; the last two differ between the alphabets. */
  function Digit(n: nat, url: bool): (c: char)
    requires n < 64
    ensures '0' <= c <= '9' || 'A' <= c <= 'Z' || 'a' <= c <= 'z' || c == (if url then '-' else '+')
            || c == (if url then '_' else '/')
  {
    if n < 26 then 'A' + n as char
    else if n < 52 then 'a' + (n - 26) as char
    else if n < 62 then '0' + (n - 52) as char
    else if n == 62 then (if url then '-' else '+')
    else (if url then '_' else '/')
  }

  function Bits(c: char): (n: nat)
    ensures n < 64
  {
    if 'A' <= c <= 'Z' then (c - 'A') as nat
    else if 'a' <= c <= 'z' then (c - 'a') as nat + 26
    else if '0' <= c <= '9' then (c - '0') as nat + 52
    else if c == '-' || c == '+' then 62
    else 63
  }

  lemma BitsOfDigit(n: nat, url: bool)
    requires n < 64
    ensures Bits(Digit(n, url)) == n
  {
  }

  /** Three bytes to four digits, without padding. */
  function Digits(b: Bytes, url: bool): Bytes
    requires Octets(b)
    decreases |b|
  {
    if b == "" then ""
    else
      var x := b[0] as nat;
      if |b| == 1 then [Digit(x / 4, url), Digit(x % 4 * 16, url)]
      else
        var y := b[1] as nat;
        if |b| == 2 then [Digit(x / 4, url), Digit(x % 4 * 16 + y / 16, url), Digit(y % 16 * 4, url)]
        else
          var z := b[2] as nat;
          [Digit(x / 4, url), Digit(x % 4 * 16 + y / 16, url), Digit(y % 16 * 4 + z / 64, url), Digit(z % 64, url)]
          + Digits(b[3..], url)
  }

  function FromDigits(s: Bytes): Bytes
    decreases |s|
  {
    if |s| < 2 then ""
    else
      var first := (Bits(s[0]) * 4 + Bits(s[1]) / 16) as char;
      if |s| == 2 then [first]
      else
        var second := (Bits(s[1]) % 16 * 16 + Bits(s[2]) / 4) as char;
        if |s| == 3 then [first, second]
        else [first, second, (Bits(s[2]) % 4 * 64 + Bits(s[3])) as char] + FromDigits(s[4..])
  }

  /** The bits of each byte, taken apart and put together. */
  lemma BytesOfBits(x: nat, y: nat, z: nat, url: bool)
    requires x <= 0xFF && y <= 0xFF && z <= 0xFF
    ensures Bits(Digit(x / 4, url)) * 4 + Bits(Digit(x % 4 * 16 + y / 16, url)) / 16 == x
    ensures Bits(Digit(x % 4 * 16 + y / 16, url)) % 16 * 16 + Bits(Digit(y % 16 * 4 + z / 64, url)) / 4 == y
    ensures Bits(Digit(y % 16 * 4 + z / 64, url)) % 4 * 64 + Bits(Digit(z % 64, url)) == z
  {
    BitsOfDigit(x / 4, url);
    BitsOfDigit(x % 4 * 16 + y / 16, url);
    BitsOfDigit(y % 16 * 4 + z / 64, url);
    BitsOfDigit(z % 64, url);
  }

  lemma {:induction false} FourDigits(p: char, q: char, r: char, t: char, x: char, y: char, z: char, more: Bytes)
    requires Bits(p) * 4 + Bits(q) / 16 == x as int && Bits(q) % 16 * 16 + Bits(r) / 4 == y as int
    requires Bits(r) % 4 * 64 + Bits(t) == z as int
    ensures FromDigits([p, q, r, t] + more) == [x, y, z] + FromDigits(more)
  {
    hide Bits;
    var s := [p, q, r, t] + more;
    assert s[0] == p && s[1] == q && s[2] == r && s[3] == t && s[4..] == more;
  }

  lemma {:induction false} ThreeBytes(b: Bytes, url: bool)
    requires Octets(b) && |b| >= 3
    ensures FromDigits(Digits(b, url)) == [b[0], b[1], b[2]] + FromDigits(Digits(b[3..], url))
  {
    hide FromDigits, Bits, Digit;
    var x, y, z := b[0] as nat, b[1] as nat, b[2] as nat;
    BytesOfBits(x, y, z, url);
    FourDigits(Digit(x / 4, url), Digit(x % 4 * 16 + y / 16, url), Digit(y % 16 * 4 + z / 64, url), Digit(z % 64, url),
               b[0], b[1], b[2], Digits(b[3..], url));
  }

  lemma TwoDigits(p: char, q: char, x: char)
    requires Bits(p) * 4 + Bits(q) / 16 == x as int
    ensures FromDigits([p, q]) == [x]
  {
    hide Bits;
  }

  lemma ThreeDigits(p: char, q: char, r: char, x: char, y: char)
    requires Bits(p) * 4 + Bits(q) / 16 == x as int && Bits(q) % 16 * 16 + Bits(r) / 4 == y as int
    ensures FromDigits([p, q, r]) == [x, y]
  {
    hide Bits;
  }

  lemma OneByte(b: Bytes, url: bool)
    requires Octets(b) && |b| == 1
    ensures FromDigits(Digits(b, url)) == b
  {
    hide FromDigits, Bits, Digit;
    var x := b[0] as nat;
    BytesOfBits(x, 0, 0, url);
    TwoDigits(Digit(x / 4, url), Digit(x % 4 * 16, url), b[0]);
  }

  lemma TwoBytes(b: Bytes, url: bool)
    requires Octets(b) && |b| == 2
    ensures FromDigits(Digits(b, url)) == b
  {
    hide FromDigits, Bits, Digit;
    var x, y := b[0] as nat, b[1] as nat;
    BytesOfBits(x, y, 0, url);
    ThreeDigits(Digit(x / 4, url), Digit(x % 4 * 16 + y / 16, url), Digit(y % 16 * 4, url), b[0], b[1]);
  }

  lemma {:induction false} FromDigitsOfDigits(b: Bytes, url: bool)
    requires Octets(b)
    ensures FromDigits(Digits(b, url)) == b
    decreases |b|
  {
    if |b| == 1 {
      OneByte(b, url);
    } else if |b| == 2 {
      TwoBytes(b, url);
    } else if |b| >= 3 {
      hide Digits, FromDigits;
      ThreeBytes(b, url);
      FromDigitsOfDigits(b[3..], url);
      assert b == [b[0], b[1], b[2]] + b[3..];
    }
  }

  lemma {:induction false} DigitsCount(b: Bytes, url: bool)
    requires Octets(b)
    ensures |Digits(b, url)| == (|b| * 4 + 2) / 3
    decreases |b|
  {
    if |b| >= 3 {
      DigitsCount(b[3..], url);
    }
  }

  lemma {:induction false} DigitsAreDigits(b: Bytes, url: bool)
    requires Octets(b)
    ensures forall c :: c in Digits(b, url) ==> exists n: nat :: n < 64 && c == Digit(n, url)
    decreases |b|
  {
    if |b| >= 3 {
      DigitsAreDigits(b[3..], url);
    }
  }

  function Encode64Url(b: Bytes): Bytes {
    if Octets(b) then Digits(b, true) else ""
  }

  function Encode64(b: Bytes): Bytes {
    if !Octets(b) then ""
    else Digits(b, false) + Padding(b)
  }

  /** Padding is dropped; neither decoder is asked about texts that are no encoding. */
  function Decode64(s: Bytes): Bytes {
    FromDigits(s[..IndexOf(s, '=')])
  }

  lemma {:induction false} Base64UrlIsLawful(b: Bytes)
    requires Octets(b)
    ensures FromDigits(Encode64Url(b)) == b && Base64Text(Encode64Url(b))
    ensures |b| == 64 ==> |Encode64Url(b)| == 86
  {
    FromDigitsOfDigits(b, true);
    DigitsCount(b, true);
    DigitsAreDigits(b, true);
    var s := Digits(b, true);
    forall k | 0 <= k < |s|
      ensures '0' <= s[k] <= '9' || 'A' <= s[k] <= 'Z' || 'a' <= s[k] <= 'z' || s[k] == '-' || s[k] == '_'
    {
      assert s[k] in s;
      var n: nat :| n < 64 && s[k] == Digit(n, true);
    }
  }

  lemma {:induction false} PlainDigits(b: Bytes)
    requires Octets(b)
    ensures Base64StdText(Digits(b, false)) && '=' !in Digits(b, false)
  {
    DigitsAreDigits(b, false);
    var s := Digits(b, false);
    forall k | 0 <= k < |s|
      ensures ('0' <= s[k] <= '9' || 'A' <= s[k] <= 'Z' || 'a' <= s[k] <= 'z' || s[k] == '+' || s[k] == '/')
              && s[k] != '='
    {
      assert s[k] in s;
      var n: nat :| n < 64 && s[k] == Digit(n, false);
    }
  }

  lemma PaddingComesOff(digits: Bytes, padding: Bytes)
    requires '=' !in digits && (padding == "" || padding[0] == '=')
    ensures (digits + padding)[..IndexOf(digits + padding, '=')] == digits
  {
    if padding == "" {
      assert digits + padding == digits;
      assert IndexOf(digits, '=') == |digits|;
    } else {
      IndexOfAppend(digits, '=', padding[1..]);
      assert digits + ['='] + padding[1..] == digits + padding;
    }
  }

  function Padding(b: Bytes): Bytes {
    if |b| % 3 == 1 then "==" else if |b| % 3 == 2 then "=" else ""
  }

  lemma {:induction false} Decode64Of(b: Bytes)
    requires Octets(b)
    ensures Decode64(Encode64(b)) == b
  {
    FromDigitsOfDigits(b, false);
    PlainDigits(b);
    PaddingComesOff(Digits(b, false), Padding(b));
    hide Digits, FromDigits, IndexOf, Base64StdText;
  }

  lemma {:induction false} Encode64Text(b: Bytes)
    requires Octets(b)
    ensures Base64StdText(Encode64(b))
  {
    PlainDigits(b);
    PaddedText(Digits(b, false), Padding(b));
    hide Digits, Base64StdText;
  }

  lemma Encode64Size(b: Bytes)
    requires Octets(b) && |b| == 64
    ensures |Encode64(b)| == 88
  {
    DigitsCount(b, false);
    hide Digits;
  }

  lemma PaddedText(digits: Bytes, padding: Bytes)
    requires Base64StdText(digits) && (padding == "==" || padding == "=" || padding == "")
    ensures Base64StdText(digits + padding)
  {
  }

  // --- JSON ----------------------------------------------------------------------------------

  function Hex(n: nat): (c: char)
    requires n < 16
    ensures c != '\"' && c != '\\'
  {
    if n < 10 then '0' + n as char else 'a' + (n - 10) as char
  }

  /** A character inside quotes (RFC 8259, section 7). */
  function Escaped(c: char): (s: Bytes)
    ensures |s| == EscapedSize(c) && s[0] != '\"'
  {
    if c == '\"' then "\\\""
    else if c == '\\' then "\\\\"
    else if c as int == 0x08 then "\\b"
    else if c as int == 0x09 then "\\t"
    else if c as int == 0x0A then "\\n"
    else if c as int == 0x0C then "\\f"
    else if c as int == 0x0D then "\\r"
    else if c as int < 0x20 then "\\u00" + [Hex(c as int / 16), Hex(c as int % 16)]
    else [c]
  }

  /** The text and the closing quote. */
  function Rest(s: Bytes): Bytes
    decreases |s|
  {
    if s == "" then "\"" else Escaped(s[0]) + Rest(s[1..])
  }

  function Quote(s: Bytes): Bytes {
    "\"" + Rest(s)
  }

  lemma {:induction false} QuoteSize(s: Bytes)
    ensures |Rest(s)| + 1 == Quoted(s)
    decreases |s|
  {
    if s != "" {
      QuoteSize(s[1..]);
    }
  }

  /** An escaped character can be told from what follows it. */
  lemma {:induction false} EscapedInjective(c: char, x: Bytes, d: char, y: Bytes)
    requires Escaped(c) + x == Escaped(d) + y
    ensures c == d && x == y
  {
    var s, t := Escaped(c) + x, Escaped(d) + y;
    assert s[0] == Escaped(c)[0] && t[0] == Escaped(d)[0];
    if s[0] == '\\' {
      assert s[1] == Escaped(c)[1] && t[1] == Escaped(d)[1];
      if s[1] == 'u' {
        assert s[4] == Escaped(c)[4] == Hex(c as int / 16) && t[4] == Escaped(d)[4] == Hex(d as int / 16);
        assert s[5] == Escaped(c)[5] == Hex(c as int % 16) && t[5] == Escaped(d)[5] == Hex(d as int % 16);
      }
    }
    assert c == d;
    assert x == s[|Escaped(c)|..] && y == t[|Escaped(d)|..];
  }

  lemma RestApart(s: Bytes, x: Bytes)
    ensures (Rest(s) + x)[0] == '\"' <==> s == ""
    ensures s != "" ==> Rest(s) + x == Escaped(s[0]) + (Rest(s[1..]) + x)
  {
    hide Escaped;
    if s != "" {
      assert Rest(s)[0] == Escaped(s[0])[0];
    }
  }

  lemma RestOfNothing(x: Bytes)
    ensures (Rest("") + x)[1..] == x
  {
  }

  /** So can a quoted text. */
  lemma {:induction false} RestInjective(s: Bytes, x: Bytes, t: Bytes, y: Bytes)
    requires Rest(s) + x == Rest(t) + y
    ensures s == t && x == y
    decreases |s|
  {
    hide Rest, Escaped;
    RestApart(s, x);
    RestApart(t, y);
    if s == "" {
      RestOfNothing(x);
      RestOfNothing(y);
    } else {
      EscapedInjective(s[0], Rest(s[1..]) + x, t[0], Rest(t[1..]) + y);
      RestInjective(s[1..], x, t[1..], y);
      assert s == [s[0]] + s[1..] && t == [t[0]] + t[1..];
    }
  }

  lemma {:induction false} QuoteInjective(s: Bytes, x: Bytes, t: Bytes, y: Bytes)
    requires Quote(s) + x == Quote(t) + y
    ensures s == t && x == y
  {
    QuoteApart(s, x);
    QuoteApart(t, y);
    hide Quote, Rest;
    RestInjective(s, x, t, y);
  }

  lemma QuoteApart(s: Bytes, x: Bytes)
    ensures (Quote(s) + x)[1..] == Rest(s) + x
  {
    hide Rest;
  }

  function WriteValue(v: Value): (s: Bytes)
    ensures s != ""
  {
    match v
    case Text(text) => Quote(text)
    case Number(n) => Decimal(n)
    case Flag(flag) => if flag then "true" else "false"
    case Other => "null"
  }

  lemma WrittenSize(v: Value)
    requires !v.Other?
    ensures |WriteValue(v)| == ValueSize(v)
  {
    if v.Text? {
      QuoteSize(v.text);
    }
  }

  predicate EndsNumber(x: Bytes) {
    x != "" && !IsDigit(x[0])
  }

  lemma {:induction false} DigitsBeforeOther(a: Bytes, x: Bytes, b: Bytes, y: Bytes)
    requires AllDigits(a) && AllDigits(b) && EndsNumber(x) && EndsNumber(y) && a + x == b + y
    ensures a == b && x == y
    decreases |a|
  {
    assert (a + x)[0] == if a == "" then x[0] else a[0];
    assert (b + y)[0] == if b == "" then y[0] else b[0];
    if a == "" {
      assert a + x == x && b + y == y;
    } else {
      assert (a + x)[1..] == a[1..] + x && (b + y)[1..] == b[1..] + y;
      DigitsBeforeOther(a[1..], x, b[1..], y);
      assert a == [a[0]] + a[1..] && b == [b[0]] + b[1..];
    }
  }

  lemma {:induction false} ValueInjective(v: Value, x: Bytes, w: Value, y: Bytes)
    requires EndsNumber(x) && EndsNumber(y) && WriteValue(v) + x == WriteValue(w) + y
    ensures v == w && x == y
  {
    var s, t := WriteValue(v), WriteValue(w);
    assert (s + x)[0] == s[0] && (t + y)[0] == t[0];
    assert x == (s + x)[|s|..] && y == (t + y)[|t|..];
    FirstOfValue(v);
    FirstOfValue(w);
    if v.Text? {
      QuoteInjective(v.text, x, w.text, y);
    } else if v.Number? {
      DigitsBeforeOther(s, x, t, y);
      DecimalInjective(v.number, w.number);
    }
  }

  lemma FirstOfValue(v: Value)
    ensures var c := WriteValue(v)[0];
            && (v.Text? <==> c == '\"') && (v.Number? <==> IsDigit(c)) && (v == Flag(true) <==> c == 't')
            && (v == Flag(false) <==> c == 'f') && (v == Other <==> c == 'n')
  {
    if v.Number? {
      assert IsDigit(Decimal(v.number)[0]);
    }
  }

  /** Entries are written in an order of the writer's own choosing, each followed by a comma or, the
      last one, by the closing brace. */
  ghost function Pick(keys: set<Bytes>): (k: Bytes)
    requires keys != {}
    ensures k in keys
  {
    var k :| k in keys;
    k
  }

  ghost function WriteEntries(d: Document, keys: set<Bytes>): (s: Bytes)
    requires keys <= d.Keys
    ensures s != ""
    decreases keys
  {
    if keys == {} then "}" else
    var k := Pick(keys);
    Quote(k) + ":" + WriteValue(d[k]) + (if keys == {k} then "" else ",") + WriteEntries(d, keys - {k})
  }

  ghost function WriteObject(d: Document): Bytes {
    "{" + WriteEntries(d, d.Keys)
  }

  lemma {:induction false} EntriesInjective(d: Document, ks: set<Bytes>, e: Document, ls: set<Bytes>)
    requires ks <= d.Keys && ls <= e.Keys && WriteEntries(d, ks) == WriteEntries(e, ls)
    ensures ks == ls && forall k :: k in ks ==> d[k] == e[k]
    decreases ks
  {
    if ks != {} && ls != {} {
      var k, l := Pick(ks), Pick(ls);
      var x := (if ks == {k} then "" else ",") + WriteEntries(d, ks - {k});
      var y := (if ls == {l} then "" else ",") + WriteEntries(e, ls - {l});
      EntryApart(d, ks);
      EntryApart(e, ls);
      QuoteInjective(k, ":" + (WriteValue(d[k]) + x), l, ":" + (WriteValue(e[l]) + y));
      assert WriteValue(d[k]) + x == (":" + (WriteValue(d[k]) + x))[1..];
      assert WriteValue(e[l]) + y == (":" + (WriteValue(e[l]) + y))[1..];
      FollowsValue(d, ks);
      FollowsValue(e, ls);
      ValueInjective(d[k], x, e[l], y);
      assert (ks == {k}) == (ls == {l});
      assert WriteEntries(d, ks - {k}) == x[|x| - |WriteEntries(d, ks - {k})|..];
      assert WriteEntries(e, ls - {l}) == y[|y| - |WriteEntries(e, ls - {l})|..];
      EntriesInjective(d, ks - {k}, e, ls - {l});
      assert ks == ks - {k} + {k} && ls == ls - {l} + {l};
    } else if ks != {} {
      EntryApart(d, ks);
    } else if ls != {} {
      EntryApart(e, ls);
    }
  }

  lemma {:induction false} EntryApart(d: Document, keys: set<Bytes>)
    requires keys <= d.Keys && keys != {}
    ensures var k := Pick(keys);
            var x := (if keys == {k} then "" else ",") + WriteEntries(d, keys - {k});
            && WriteEntries(d, keys) == Quote(k) + (":" + (WriteValue(d[k]) + x))
            && WriteEntries(d, keys)[0] == '\"'
  {
    var k := Pick(keys);
    hide WriteValue, Rest;
    Joined(Quote(k), ":", WriteValue(d[k]), if keys == {k} then "" else ",", WriteEntries(d, keys - {k}));
  }

  lemma Joined(a: Bytes, b: Bytes, c: Bytes, d: Bytes, e: Bytes)
    ensures a + b + c + d + e == a + (b + (c + (d + e)))
  {
  }

  lemma {:induction false} FollowsValue(d: Document, keys: set<Bytes>)
    requires keys <= d.Keys && keys != {}
    ensures var k := Pick(keys);
            var x := (if keys == {k} then "" else ",") + WriteEntries(d, keys - {k});
            EndsNumber(x) && (keys == {k} <==> x[0] == '}')
  {
    var k := Pick(keys);
    assert keys == {k} <==> keys - {k} == {};
  }

  lemma {:induction false} ObjectInjective(d: Document, e: Document)
    requires WriteObject(d) == WriteObject(e)
    ensures d == e
  {
    assert WriteEntries(d, d.Keys) == WriteObject(d)[1..] && WriteEntries(e, e.Keys) == WriteObject(e)[1..];
    EntriesInjective(d, d.Keys, e, e.Keys);
  }

  /** What the entries take, each with the comma or brace behind it. */
  ghost function EntriesSize(d: Document, keys: set<Bytes>): nat
    requires keys <= d.Keys
    decreases keys
  {
    if keys == {} then 0 else
    var k := Pick(keys);
    |Quote(k)| + 2 + |WriteValue(d[k])| + EntriesSize(d, keys - {k})
  }

  lemma {:induction false} WrittenEntriesSize(d: Document, keys: set<Bytes>)
    requires keys <= d.Keys
    ensures |WriteEntries(d, keys)| == if keys == {} then 1 else EntriesSize(d, keys)
    decreases keys
  {
    if keys != {} {
      var k := Pick(keys);
      WrittenEntriesSize(d, keys - {k});
      assert keys == {k} <==> keys - {k} == {};
    }
  }

  /** The order does not matter for the size. */
  lemma {:induction false} AnyEntryFirst(d: Document, keys: set<Bytes>, key: Bytes)
    requires keys <= d.Keys && key in keys
    ensures EntriesSize(d, keys) == |Quote(key)| + 2 + |WriteValue(d[key])| + EntriesSize(d, keys - {key})
    decreases keys
  {
    var k := Pick(keys);
    if k != key {
      AnyEntryFirst(d, keys - {k}, key);
      AnyEntryFirst(d, keys - {key}, k);
      assert keys - {k} - {key} == keys - {key} - {k};
    }
  }

  lemma {:induction false} SizeElsewhere(d: Document, e: Document, keys: set<Bytes>)
    requires keys <= d.Keys && keys <= e.Keys && forall k :: k in keys ==> d[k] == e[k]
    ensures EntriesSize(d, keys) == EntriesSize(e, keys)
    decreases keys
  {
    if keys != {} {
      SizeElsewhere(d, e, keys - {Pick(keys)});
    }
  }

  lemma {:induction false} OneMoreEntry(d: Document, key: Bytes, v: Value)
    requires key !in d && !v.Other?
    ensures |WriteObject(d[key := v])|
            == |WriteObject(d)| + Quoted(key) + 1 + ValueSize(v) + (if d == map[] then 0 else 1)
  {
    var e := d[key := v];
    WrittenEntriesSize(d, d.Keys);
    WrittenEntriesSize(e, e.Keys);
    AnyEntryFirst(e, e.Keys, key);
    assert e.Keys - {key} == d.Keys;
    SizeElsewhere(d, e, d.Keys);
    QuoteSize(key);
    WrittenSize(v);
    assert d == map[] <==> d.Keys == {};
  }

  ghost function ReadObject(s: Bytes): Option<Document> {
    if exists d :: WriteObject(d) == s then
      var d :| WriteObject(d) == s;
      Some(d)
    else None
  }

  ghost function Writer(): JsonCodec {
    JsonCodec((d: Document) => WriteObject(d), (s: Bytes) => ReadObject(s))
  }

  lemma {:induction false} JsonIsLawful()
    ensures Writer().Lawful()
  {
    forall d ensures ReadObject(WriteObject(d)) == Some(d) {
      var e := ReadObject(WriteObject(d)).value;
      ObjectInjective(d, e);
    }
    forall d: Document, key, v: Value | key !in d && !v.Other?
      ensures |WriteObject(d[key := v])|
              == |WriteObject(d)| + Quoted(key) + 1 + ValueSize(v) + (if d == map[] then 0 else 1)
    {
      OneMoreEntry(d, key, v);
    }
    assert |WriteObject(map[])| == 2;
  }

  // --- Records -------------------------------------------------------------------------------

  function WriteInt(n: int): Bytes {
    if n < 0 then "-" + Decimal(-n) else "+" + Decimal(n)
  }

  lemma SignApart(n: int, x: Bytes)
    ensures var s := WriteInt(n) + x;
            s[0] == (if n < 0 then '-' else '+') && s[1..] == Decimal(if n < 0 then -n else n) + x
  {
  }

  lemma {:induction false} IntInjective(m: int, x: Bytes, n: int, y: Bytes)
    requires EndsNumber(x) && EndsNumber(y) && WriteInt(m) + x == WriteInt(n) + y
    ensures m == n && x == y
  {
    var a, b := if m < 0 then -m else m, if n < 0 then -n else n;
    SignApart(m, x);
    SignApart(n, y);
    hide WriteInt, Decimal;
    DigitsBeforeOther(Decimal(a), x, Decimal(b), y);
    DecimalInjective(a, b);
  }

  function WriteTimes(r: CredentialRecord): Bytes {
    WriteInt(r.createdAt) + (if r.expiresAt.None? then "n" else "s" + WriteInt(r.expiresAt.value) + ".")
  }

  lemma {:induction false} TimesInjective(r: CredentialRecord, q: CredentialRecord)
    requires WriteTimes(r) == WriteTimes(q)
    ensures r.createdAt == q.createdAt && r.expiresAt == q.expiresAt
  {
    var x := if r.expiresAt.None? then "n" else "s" + WriteInt(r.expiresAt.value) + ".";
    var y := if q.expiresAt.None? then "n" else "s" + WriteInt(q.expiresAt.value) + ".";
    IntInjective(r.createdAt, x, q.createdAt, y);
    assert x[0] == (if r.expiresAt.None? then 'n' else 's') && y[0] == (if q.expiresAt.None? then 'n' else 's');
    if r.expiresAt.Some? {
      assert x[1..] == WriteInt(r.expiresAt.value) + "." && y[1..] == WriteInt(q.expiresAt.value) + ".";
      IntInjective(r.expiresAt.value, ".", q.expiresAt.value, ".");
    }
  }

  function Texts(r: CredentialRecord): seq<Bytes> {
    [r.id, r.agentDid, r.issuer, r.credentialType, r.format, r.raw]
  }

  function QuoteAll(texts: seq<Bytes>, rest: Bytes): Bytes {
    if texts == [] then rest else Quote(texts[0]) + QuoteAll(texts[1..], rest)
  }

  lemma {:induction false} QuoteAllInjective(a: seq<Bytes>, x: Bytes, b: seq<Bytes>, y: Bytes)
    requires |a| == |b| && QuoteAll(a, x) == QuoteAll(b, y)
    ensures a == b && x == y
  {
    if a != [] {
      QuoteInjective(a[0], QuoteAll(a[1..], x), b[0], QuoteAll(b[1..], y));
      QuoteAllInjective(a[1..], x, b[1..], y);
      assert a == [a[0]] + a[1..] && b == [b[0]] + b[1..];
    }
  }

  function WriteRecord(r: CredentialRecord): Bytes {
    QuoteAll(Texts(r), WriteTimes(r))
  }

  lemma {:induction false} RecordInjective(r: CredentialRecord, q: CredentialRecord)
    requires WriteRecord(r) == WriteRecord(q)
    ensures r == q
  {
    QuoteAllInjective(Texts(r), WriteTimes(r), Texts(q), WriteTimes(q));
    TimesInjective(r, q);
    var a, b := Texts(r), Texts(q);
    assert a[0] == b[0] && a[1] == b[1] && a[2] == b[2] && a[3] == b[3] && a[4] == b[4] && a[5] == b[5];
  }

  ghost function ReadRecord(s: Bytes): Option<CredentialRecord> {
    if exists r :: WriteRecord(r) == s then
      var r :| WriteRecord(r) == s;
      Some(r)
    else None
  }

  ghost function Records(): CredentialVault.RecordCodec {
    CredentialVault.RecordCodec((r: CredentialRecord) => WriteRecord(r), (s: Bytes) => ReadRecord(s))
  }

  lemma {:induction false} RecordsAreLawful()
    ensures Records().Lawful()
  {
    forall r ensures ReadRecord(WriteRecord(r)) == Some(r) {
      var q := ReadRecord(WriteRecord(r)).value;
      RecordInjective(r, q);
    }
  }
}
