/**
 The bytes a journal entry's tag is computed over: each field behind its length as a 64-bit
 little-endian number, so that the boundaries between fields are part of what is signed.
 */
module JournalMac {
  import opened Text

  /** `n` as `width` little-endian bytes. */
  function LittleEndian(n: nat, width: nat): (bytes: Bytes)
    ensures |bytes| == width
    decreases width
  {
    if width == 0 then "" else [(n % 256) as char] + LittleEndian(n / 256, width - 1)
  }

  function Pow256(width: nat): nat {
    if width == 0 then 1 else 256 * Pow256(width - 1)
  }

  lemma {:induction false} LittleEndianInjective(m: nat, n: nat, width: nat)
    requires m < Pow256(width) && n < Pow256(width)
    requires LittleEndian(m, width) == LittleEndian(n, width)
    ensures m == n
    decreases width
  {
    if width > 0 {
      var a, b := LittleEndian(m, width), LittleEndian(n, width);
      assert a[0] == b[0] && a[1..] == b[1..];
      assert a[1..] == LittleEndian(m / 256, width - 1) && b[1..] == LittleEndian(n / 256, width - 1);
      LittleEndianInjective(m / 256, n / 256, width - 1);
    }
  }

  lemma Pow256Of8()
    ensures Pow256(8) == U64_LIMIT
  {
    assert Pow256(4) == 0x1_0000_0000;
    assert Pow256(6) == 0x1_0000_0000_0000;
  }

  function Stream(fields: seq<Bytes>): Bytes {
    if fields == [] then "" else LittleEndian(|fields[0]|, 8) + fields[0] + Stream(fields[1..])
  }

  lemma {:induction false} StreamAppend(fields: seq<Bytes>, last: Bytes)
    ensures Stream(fields + [last]) == Stream(fields) + LittleEndian(|last|, 8) + last
  {
    if fields == [] {
      assert fields + [last] == [last] && [last][1..] == [];
      assert Stream([]) == "";
    } else {
      var head, rest := LittleEndian(|fields[0]|, 8) + fields[0], Stream(fields[1..]);
      assert (fields + [last])[0] == fields[0] && (fields + [last])[1..] == fields[1..] + [last];
      StreamAppend(fields[1..], last);
      assert Stream(fields) == head + rest;
      assert Stream(fields + [last]) == head + Stream(fields[1..] + [last]);
      hide Stream, LittleEndian;
      Assoc(rest, LittleEndian(|last|, 8), last);
      Assoc(head, rest, LittleEndian(|last|, 8) + last);
      Assoc(head + rest, LittleEndian(|last|, 8), last);
    }
  }

  /** The running MAC is fed field by field, in two updates each. */
  method Feed(fields: seq<Bytes>) returns (fed: Bytes)
    ensures fed == Stream(fields)
  {
    fed := "";
    for i := 0 to |fields|
      invariant 0 <= i <= |fields|
      invariant fed == Stream(fields[..i])
    {
      StreamAppend(fields[..i], fields[i]);
      assert fields[..i + 1] == fields[..i] + [fields[i]];
      fed := fed + LittleEndian(|fields[i]|, 8);
      fed := fed + fields[i];
    }
    assert fields[..|fields|] == fields;
  }

  predicate Lengths64(fields: seq<Bytes>) {
    forall k :: 0 <= k < |fields| ==> |fields[k]| < U64_LIMIT
  }

  /** Equal streams come from equal lists of fields, whatever their number: an entry with two fields
      and one with four are never authenticated by the same bytes. */
  lemma {:induction false} StreamInjective(a: seq<Bytes>, b: seq<Bytes>)
    requires Lengths64(a) && Lengths64(b) && Stream(a) == Stream(b)
    ensures a == b
    decreases |a|
  {
    if a != [] && b != [] {
      var s, t := Stream(a), Stream(b);
      assert s[..8] == LittleEndian(|a[0]|, 8) && t[..8] == LittleEndian(|b[0]|, 8);
      Pow256Of8();
      LittleEndianInjective(|a[0]|, |b[0]|, 8);
      var n := 8 + |a[0]|;
      assert s[8..n] == a[0] && t[8..n] == b[0];
      assert s[n..] == Stream(a[1..]) && t[n..] == Stream(b[1..]);
      StreamInjective(a[1..], b[1..]);
    }
  }

  // --- Journal entries -----------------------------------------------------------------------

  datatype GrantEntry = GrantEntry(path: Bytes, sid: Bytes, profile: Bytes, ownerPid: nat)

  function GrantFields(e: GrantEntry): seq<Bytes> {
    [e.path, e.sid, e.profile, Decimal(e.ownerPid)]
  }

  function LegacyFields(path: Bytes, sddl: Bytes): seq<Bytes> {
    [path, sddl]
  }

  predicate Sized(e: GrantEntry) {
    |e.path| < U64_LIMIT && |e.sid| < U64_LIMIT && |e.profile| < U64_LIMIT && e.ownerPid < 0x1_0000_0000
  }

  lemma {:induction false} SizedFields(e: GrantEntry)
    requires Sized(e)
    ensures Lengths64(GrantFields(e))
  {
    DecimalU64Length(e.ownerPid);
  }

  /** The tag covers every field of an entry, and no legacy entry's. */
  lemma {:induction false} GrantTagCoversEntry(e: GrantEntry, f: GrantEntry, path: Bytes, sddl: Bytes)
    requires Sized(e) && Sized(f) && |path| < U64_LIMIT && |sddl| < U64_LIMIT
    ensures Stream(GrantFields(e)) == Stream(GrantFields(f)) ==> e == f
    ensures Stream(GrantFields(e)) != Stream(LegacyFields(path, sddl))
  {
    SizedFields(e);
    SizedFields(f);
    if Stream(GrantFields(e)) == Stream(GrantFields(f)) {
      StreamInjective(GrantFields(e), GrantFields(f));
      assert forall k :: 0 <= k < 4 ==> GrantFields(e)[k] == GrantFields(f)[k];
      DecimalInjective(e.ownerPid, f.ownerPid);
    }
    if Stream(GrantFields(e)) == Stream(LegacyFields(path, sddl)) {
      StreamInjective(GrantFields(e), LegacyFields(path, sddl));
    }
  }

  const SID_PREFIX: Bytes := "S-1-15-2-"

  /** `S-1-15-2-` and then numbers joined by dashes. */
  predicate IsSandboxSid(sid: Bytes) {
    StartsWith(sid, SID_PREFIX)
    && forall part :: part in Split(sid[|SID_PREFIX|..], '-') ==> part != "" && AllDigits(part)
  }

  /** An entry read off the disk is applied only with the right tag and a sandbox SID. */
  predicate Trusted(mac: (Bytes, Bytes) -> Bytes, key: Bytes, e: GrantEntry, tag: Bytes) {
    tag == mac(key, Stream(GrantFields(e))) && IsSandboxSid(e.sid)
  }
}
