/**
 JSON objects, as far as the signed documents go: what a codec must keep, and how many bytes it
 writes (RFC 8259, section 7, with the short escapes where there are any).
 */
module Json {
  import opened Wrappers
  import opened Text

  datatype Value = Text(text: Bytes) | Number(number: nat) | Flag(flag: bool) | Other

  type Document = map<Bytes, Value>

  /** How many bytes a character takes inside quotes. */
  function EscapedSize(c: char): (n: nat)
    ensures n >= 1
  {
    if c == '\"' || c == '\\' || c as int in {0x08, 0x09, 0x0A, 0x0C, 0x0D} then 2
    else if c as int < 0x20 then 6
    else 1
  }

  /** The size of a quoted text, quotes included. */
  function Quoted(s: Bytes): nat
    decreases |s|
  {
    if s == "" then 2 else EscapedSize(s[0]) + Quoted(s[1..])
  }

  lemma {:induction false} QuotedIsLonger(s: Bytes)
    ensures Quoted(s) >= |s| + 2
    decreases |s|
  {
    if s != "" {
      QuotedIsLonger(s[1..]);
    }
  }

  function ValueSize(v: Value): nat
    requires !v.Other?
  {
    match v
    case Text(text) => Quoted(text)
    case Number(n) => |Decimal(n)|
    case Flag(flag) => if flag then 4 else 5
  }

  datatype JsonCodec = JsonCodec(encode: Document -> Bytes, decode: Bytes -> Option<Document>) {
    /** A serialized object parses back to itself, and each new entry adds a key, a colon, a value
        and, unless it is the only one, a comma. */
    ghost predicate Lawful() {
      && (forall d :: decode(encode(d)) == Some(d))
      && |encode(map[])| == 2
      && (forall d: Document, key, v: Value :: key !in d && !v.Other? ==>
            |encode(d[key := v])| == |encode(d)| + Quoted(key) + 1 + ValueSize(v) + (if d == map[] then 0 else 1))
    }

    /** The size of one more entry, with its comma. */
    lemma Grows(d: Document, key: Bytes, v: Value)
      requires Lawful() && key !in d && !v.Other?
      ensures |encode(d[key := v])| == |encode(d)| + Quoted(key) + 1 + ValueSize(v) + (if d == map[] then 0 else 1)
    {
    }
  }

  /** What one entry takes, without a comma. */
  function EntrySize(key: Bytes, v: Value): nat
    requires !v.Other?
  {
    Quoted(key) + 1 + ValueSize(v)
  }
}
