/** Stored credentials, and what a list of them must look like. */
module Credential {
  import opened Wrappers
  import opened Text

  datatype CredentialRecord = CredentialRecord(
    id: Bytes,
    agentDid: Bytes,
    issuer: Bytes,
    credentialType: Bytes,
    format: Bytes,
    raw: Bytes,
    createdAt: int,
    /** None for a credential without expiry. */
    expiresAt: Option<int>)

  type Contents = map<Bytes, CredentialRecord>

  predicate NewestFirst(records: seq<CredentialRecord>) {
    forall i, j :: 0 <= i < j < |records| ==> records[i].createdAt >= records[j].createdAt
  }

  predicate DistinctIds(records: seq<CredentialRecord>) {
    forall i, j :: 0 <= i < j < |records| ==> records[i].id != records[j].id
  }

  predicate KeyedById(contents: Contents) {
    forall id :: id in contents ==> contents[id].id == id
  }

  /** Every record once, and nothing else. */
  predicate Enumerates(records: seq<CredentialRecord>, contents: Contents) {
    && DistinctIds(records)
    && (forall r :: r in records ==> r.id in contents && contents[r.id] == r)
    && (forall id :: id in contents ==> contents[id] in records)
  }

  predicate IsListing(records: seq<CredentialRecord>, contents: Contents) {
    Enumerates(records, contents) && NewestFirst(records)
  }

  /** Bound to the agent's key, from the issuer, of the type, and unexpired. */
  predicate Applies(r: CredentialRecord, agentDid: Bytes, issuer: Bytes, credentialType: Bytes, now: int) {
    && r.agentDid == agentDid && r.issuer == issuer && r.credentialType == credentialType
    && (r.expiresAt.None? || r.expiresAt.value > now)
  }

  function Applicable(contents: Contents, agentDid: Bytes, issuer: Bytes, credentialType: Bytes, now: int): Contents {
    map id | id in contents && Applies(contents[id], agentDid, issuer, credentialType, now) :: contents[id]
  }

  lemma {:induction false} DistinctCounts(records: seq<CredentialRecord>, r: CredentialRecord)
    requires DistinctIds(records)
    ensures multiset(records)[r] == if r in records then 1 else 0
    decreases |records|
  {
    if records != [] {
      var init, last := records[..|records| - 1], records[|records| - 1];
      assert records == init + [last];
      DistinctCounts(init, r);
      assert forall i :: 0 <= i < |init| ==> init[i].id != last.id;
    }
  }

  lemma {:induction false} EnumerationCounts(records: seq<CredentialRecord>, contents: Contents, r: CredentialRecord)
    requires Enumerates(records, contents) && KeyedById(contents)
    ensures multiset(records)[r] == if r.id in contents && contents[r.id] == r then 1 else 0
  {
    DistinctCounts(records, r);
  }

  /** Any two enumerations of the same contents hold the same records, each as often. */
  lemma {:induction false} EnumerationsAgree(a: seq<CredentialRecord>, b: seq<CredentialRecord>, contents: Contents)
    requires Enumerates(a, contents) && Enumerates(b, contents) && KeyedById(contents)
    ensures multiset(a) == multiset(b)
  {
    forall r ensures multiset(a)[r] == multiset(b)[r] {
      EnumerationCounts(a, contents, r);
      EnumerationCounts(b, contents, r);
    }
  }

  // --- Sorting -------------------------------------------------------------------------------

  /** Behind everything at least as new: equal keys keep their order. */
  function Insert(sorted: seq<CredentialRecord>, r: CredentialRecord): seq<CredentialRecord> {
    if sorted == [] || sorted[|sorted| - 1].createdAt >= r.createdAt then sorted + [r]
    else Insert(sorted[..|sorted| - 1], r) + [sorted[|sorted| - 1]]
  }

  /** `sort_by_key` on the reversed creation time, and `ORDER BY created_at DESC`. */
  function SortNewest(records: seq<CredentialRecord>): seq<CredentialRecord> {
    if records == [] then [] else Insert(SortNewest(records[..|records| - 1]), records[|records| - 1])
  }

  lemma {:induction false} InsertHolds(sorted: seq<CredentialRecord>, r: CredentialRecord)
    ensures multiset(Insert(sorted, r)) == multiset(sorted) + multiset{r}
    ensures forall x :: x in Insert(sorted, r) ==> x in sorted || x == r
    decreases |sorted|
  {
    if !(sorted == [] || sorted[|sorted| - 1].createdAt >= r.createdAt) {
      InsertHolds(sorted[..|sorted| - 1], r);
      assert sorted == sorted[..|sorted| - 1] + [sorted[|sorted| - 1]];
    }
  }

  lemma {:induction false} InsertIsNewestFirst(sorted: seq<CredentialRecord>, r: CredentialRecord)
    requires NewestFirst(sorted)
    ensures NewestFirst(Insert(sorted, r))
    decreases |sorted|
  {
    if !(sorted == [] || sorted[|sorted| - 1].createdAt >= r.createdAt) {
      var init := sorted[..|sorted| - 1];
      InsertIsNewestFirst(init, r);
      InsertHolds(init, r);
      var rest := Insert(init, r);
      forall i | 0 <= i < |rest| ensures rest[i].createdAt >= sorted[|sorted| - 1].createdAt {
        assert rest[i] in rest;
      }
    }
  }

  lemma {:induction false} SortNewestIs(records: seq<CredentialRecord>)
    ensures NewestFirst(SortNewest(records)) && multiset(SortNewest(records)) == multiset(records)
    decreases |records|
  {
    if records != [] {
      SortNewestIs(records[..|records| - 1]);
      InsertIsNewestFirst(SortNewest(records[..|records| - 1]), records[|records| - 1]);
      InsertHolds(SortNewest(records[..|records| - 1]), records[|records| - 1]);
      assert records == records[..|records| - 1] + [records[|records| - 1]];
    }
  }

  lemma {:induction false} TwiceCounts(records: seq<CredentialRecord>, i: nat, j: nat)
    requires i < j < |records|
    ensures records[i] == records[j] ==> multiset(records)[records[i]] >= 2
  {
    assert records == records[..i] + [records[i]] + records[i + 1..];
    assert records[j] == records[i + 1..][j - i - 1];
    assert records[j] in multiset(records[i + 1..]);
  }

  lemma {:induction false} PermutationEnumerates(a: seq<CredentialRecord>, b: seq<CredentialRecord>, contents: Contents)
    requires Enumerates(a, contents) && KeyedById(contents) && multiset(a) == multiset(b)
    ensures Enumerates(b, contents)
  {
    forall r | r in b ensures r.id in contents && contents[r.id] == r {
      assert r in multiset(a);
    }
    forall id | id in contents ensures contents[id] in b {
      assert contents[id] in multiset(b);
    }
    forall i, j | 0 <= i < j < |b| ensures b[i].id != b[j].id {
      assert b[i] in multiset(a) && b[j] in multiset(a);
      EnumerationCounts(a, contents, b[i]);
      TwiceCounts(b, i, j);
    }
  }

  /** Sorting an enumeration gives a listing. */
  lemma {:induction false} SortedIsListing(records: seq<CredentialRecord>, contents: Contents)
    requires Enumerates(records, contents) && KeyedById(contents)
    ensures IsListing(SortNewest(records), contents)
  {
    SortNewestIs(records);
    PermutationEnumerates(records, SortNewest(records), contents);
  }
}
