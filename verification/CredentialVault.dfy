/**
 Two credential vaults against one map: a secret store with one item per credential, shared with
 unrelated secrets and listed by a key registry that may name items that are gone, and a table.
 */
module CredentialVault {
  import opened Wrappers
  import opened Text
  import opened Credential
  import opened KeyRegistry

  const PREFIX: Bytes := "shadi/credentials/"

  /** How a record is stored as a secret. */
  datatype RecordCodec = RecordCodec(encode: CredentialRecord -> Bytes, decode: Bytes -> Option<CredentialRecord>) {
    ghost predicate Lawful() {
      forall r :: decode(encode(r)) == Some(r)
    }
  }

  /** The secret store: its items, and the keys it would list. */
  datatype Store = Store(items: map<Bytes, Bytes>, registry: seq<Bytes>)

  datatype VaultError = Unreadable(id: Bytes)

  function ItemKey(id: Bytes): Bytes {
    PREFIX + id
  }

  lemma {:induction false} ItemKeyInjective(a: Bytes, b: Bytes)
    ensures ItemKey(a) == ItemKey(b) <==> a == b
    ensures StartsWith(ItemKey(a), PREFIX) && ItemKey(a)[|PREFIX|..] == a
  {
    assert ItemKey(a)[|PREFIX|..] == a && ItemKey(b)[|PREFIX|..] == b;
  }

  function Dropped(keys: seq<Bytes>, key: Bytes): (rest: seq<Bytes>)
    ensures forall k :: k in rest <==> k in keys && k != key
  {
    if keys == [] then [] else (if keys[0] == key then [] else [keys[0]]) + Dropped(keys[1..], key)
  }

  // --- Keychain operations -------------------------------------------------------------------

  function KeychainPut(codec: RecordCodec, s: Store, r: CredentialRecord): Store {
    var key := ItemKey(r.id);
    Store(s.items[key := codec.encode(r)], if key in s.registry then s.registry else Saved(s.registry + [key]))
  }

  /** A store without the item says so before it looks at its registry. */
  function KeychainDelete(s: Store, id: Bytes): (Store, bool) {
    var key := ItemKey(id);
    if key !in s.items then (s, false)
    else (Store(s.items - {key}, if key in s.registry then Saved(Dropped(s.registry, key)) else s.registry), true)
  }

  function KeychainGet(codec: RecordCodec, s: Store, id: Bytes): Result<Option<CredentialRecord>, VaultError> {
    var key := ItemKey(id);
    if key !in s.items then Ok(None) else
    var r := codec.decode(s.items[key]);
    if r.None? then Err(Unreadable(id)) else Ok(r)
  }

  /** The records the listed keys still lead to, in listing order. */
  function Gathered(codec: RecordCodec, s: Store, keys: seq<Bytes>): Result<seq<CredentialRecord>, VaultError> {
    if keys == [] then Ok([]) else
    var init :- Gathered(codec, s, keys[..|keys| - 1]);
    var key := keys[|keys| - 1];
    if !StartsWith(key, PREFIX) then Ok(init) else
    var r :- KeychainGet(codec, s, key[|PREFIX|..]);
    Ok(if r.None? then init else init + [r.value])
  }

  function KeychainList(codec: RecordCodec, s: Store): Result<seq<CredentialRecord>, VaultError> {
    var records :- Gathered(codec, s, s.registry);
    Ok(SortNewest(records))
  }

  function Kept(records: seq<CredentialRecord>, agentDid: Bytes, issuer: Bytes, credentialType: Bytes, now: int)
    : seq<CredentialRecord>
  {
    if records == [] then [] else
    Kept(records[..|records| - 1], agentDid, issuer, credentialType, now)
    + if Applies(records[|records| - 1], agentDid, issuer, credentialType, now) then [records[|records| - 1]] else []
  }

  class KeychainVault {
    const codec: RecordCodec
    var items: map<Bytes, Bytes>
    var registry: seq<Bytes>

    ghost function View(): Store
      reads this
    {
      Store(items, registry)
    }

    constructor (codec: RecordCodec, items: map<Bytes, Bytes>, registry: seq<Bytes>)
      ensures this.codec == codec && View() == Store(items, registry)
    {
      this.codec := codec;
      this.items, this.registry := items, registry;
    }

    method Put(r: CredentialRecord)
      modifies this
      ensures View() == KeychainPut(codec, old(View()), r)
    {
      var key := ItemKey(r.id);
      items := items[key := codec.encode(r)];
      if key !in registry {
        registry := Saved(registry + [key]);
      }
    }

    method Get(id: Bytes) returns (r: Result<Option<CredentialRecord>, VaultError>)
      ensures r == KeychainGet(codec, View(), id)
    {
      var key := ItemKey(id);
      if key !in items {
        return Ok(None);
      }
      var record := codec.decode(items[key]);
      if record.None? {
        return Err(Unreadable(id));
      }
      return Ok(record);
    }

    /** A stale entry in the listing is skipped. */
    method List() returns (r: Result<seq<CredentialRecord>, VaultError>)
      ensures r == KeychainList(codec, View())
    {
      var records: seq<CredentialRecord> := [];
      for i := 0 to |registry|
        invariant 0 <= i <= |registry|
        invariant Gathered(codec, View(), registry[..i]) == Ok(records)
        invariant forall k :: 0 <= k <= i ==> Gathered(codec, View(), registry[..k]).Ok?
      {
        assert registry[..i + 1][..i] == registry[..i];
        var key := registry[i];
        if StartsWith(key, PREFIX) {
          var got := Get(key[|PREFIX|..]);
          if got.Err? {
            GatheringFails(codec, View(), registry, i + 1);
            return Err(got.error);
          }
          if got.value.Some? {
            records := records + [got.value.value];
          }
        }
      }
      assert registry[..|registry|] == registry;
      return Ok(SortNewest(records));
    }

    method Delete(id: Bytes) returns (removed: bool)
      modifies this
      ensures (View(), removed) == KeychainDelete(old(View()), id)
    {
      var key := ItemKey(id);
      if key !in items {
        return false;
      }
      items := items - {key};
      if key in registry {
        registry := Saved(Dropped(registry, key));
      }
      return true;
    }

    /** No query engine here: filter the listing. */
    method FindValid(agentDid: Bytes, issuer: Bytes, credentialType: Bytes, now: int)
      returns (r: Result<seq<CredentialRecord>, VaultError>)
      ensures var all := KeychainList(codec, View());
              r == if all.Err? then all else Ok(Kept(all.value, agentDid, issuer, credentialType, now))
    {
      var all :- List();
      return Ok(Kept(all, agentDid, issuer, credentialType, now));
    }
  }

  /** Once gathering has failed, more keys do not mend it. */
  lemma {:induction false} GatheringFails(codec: RecordCodec, s: Store, keys: seq<Bytes>, n: nat)
    requires n <= |keys| && Gathered(codec, s, keys[..n]).Err?
    ensures Gathered(codec, s, keys) == Gathered(codec, s, keys[..n])
    decreases |keys|
  {
    if n == |keys| {
      assert keys[..n] == keys;
    } else {
      assert keys[..|keys| - 1][..n] == keys[..n];
      GatheringFails(codec, s, keys[..|keys| - 1], n);
    }
  }

  // --- The table -----------------------------------------------------------------------------

  /** The selected records among the scanned ids, each once. */
  predicate Collected(selected: Contents, scanned: seq<Bytes>, records: seq<CredentialRecord>) {
    && DistinctIds(records)
    && (forall r :: r in records ==> r.id in selected && selected[r.id] == r && r.id in scanned)
    && (forall id :: id in scanned && id in selected ==> selected[id] in records)
  }

  lemma CollectsSelected(selected: Contents, scanned: seq<Bytes>, records: seq<CredentialRecord>, id: Bytes)
    requires Collected(selected, scanned, records) && id !in scanned && id in selected && selected[id].id == id
    ensures Collected(selected, scanned + [id], records + [selected[id]])
  {
    assert forall i :: 0 <= i < |records| ==> records[i] in records;
  }

  lemma SkipsOther(selected: Contents, scanned: seq<Bytes>, records: seq<CredentialRecord>, id: Bytes)
    requires Collected(selected, scanned, records) && id !in selected
    ensures Collected(selected, scanned + [id], records)
  {
  }

  lemma CollectedAll(selected: Contents, scanned: seq<Bytes>, records: seq<CredentialRecord>)
    requires Collected(selected, scanned, records) && forall id :: id in selected ==> id in scanned
    ensures Enumerates(records, selected)
  {
  }

  /** Rows by their primary key. A query visits them in an order of the engine's own choosing. */
  class SqlVault {
    var rows: Contents

    constructor ()
      ensures rows == map[]
    {
      rows := map[];
    }

    method Put(r: CredentialRecord)
      modifies this
      ensures rows == old(rows)[r.id := r]
    {
      rows := rows[r.id := r];
    }

    method Get(id: Bytes) returns (r: Option<CredentialRecord>)
      ensures r == if id in rows then Some(rows[id]) else None
    {
      r := if id in rows then Some(rows[id]) else None;
    }

    method Delete(id: Bytes) returns (removed: bool)
      modifies this
      ensures removed == (id in old(rows)) && rows == old(rows) - {id}
    {
      removed := id in rows;
      rows := rows - {id};
    }

    /** The rows a query selects, collected one by one as the engine visits them, newest first. */
    method Select(scan: seq<Bytes>, where_: CredentialRecord -> bool) returns (r: seq<CredentialRecord>)
      requires KeyedById(rows) && Distinct(scan) && forall id :: id in scan <==> id in rows
      ensures IsListing(r, map id | id in rows && where_(rows[id]) :: rows[id])
    {
      var records: seq<CredentialRecord> := [];
      ghost var selected: Contents := map id | id in rows && where_(rows[id]) :: rows[id];
      for i := 0 to |scan|
        invariant Collected(selected, scan[..i], records)
      {
        var row := rows[scan[i]];
        assert scan[..i + 1] == scan[..i] + [scan[i]] && scan[i] !in scan[..i];
        hide Collected;
        if where_(row) {
          CollectsSelected(selected, scan[..i], records, scan[i]);
          records := records + [row];
        } else {
          SkipsOther(selected, scan[..i], records, scan[i]);
        }
      }
      assert scan[..|scan|] == scan;
      CollectedAll(selected, scan, records);
      SortedIsListing(records, selected);
      r := SortNewest(records);
    }

    method List(scan: seq<Bytes>) returns (r: seq<CredentialRecord>)
      requires KeyedById(rows) && Distinct(scan) && forall id :: id in scan <==> id in rows
      ensures IsListing(r, rows)
    {
      var every := row => true;
      r := Select(scan, every);
      assert (map id | id in rows && every(rows[id]) :: rows[id]) == rows;
    }

    method FindValid(scan: seq<Bytes>, agentDid: Bytes, issuer: Bytes, credentialType: Bytes, now: int)
      returns (r: seq<CredentialRecord>)
      requires KeyedById(rows) && Distinct(scan) && forall id :: id in scan <==> id in rows
      ensures IsListing(r, Applicable(rows, agentDid, issuer, credentialType, now))
    {
      var where_ := row => Applies(row, agentDid, issuer, credentialType, now);
      r := Select(scan, where_);
      assert (map id | id in rows && where_(rows[id]) :: rows[id])
          == Applicable(rows, agentDid, issuer, credentialType, now);
    }
  }

  // --- The keychain answers like a map -------------------------------------------------------

  /** The items are exactly these credentials, beside unrelated secrets. */
  ghost predicate ItemsHold(codec: RecordCodec, items: map<Bytes, Bytes>, contents: Contents) {
    && KeyedById(contents)
    && (forall id :: id in contents ==>
          ItemKey(id) in items && codec.decode(items[ItemKey(id)]) == Some(contents[id]))
    && (forall key :: key in items && StartsWith(key, PREFIX) ==> key[|PREFIX|..] in contents)
  }

  /** The registry names each of them once, beside whatever else it names. */
  predicate Registers(registry: seq<Bytes>, contents: Contents) {
    && (forall id :: id in contents ==> ItemKey(id) in registry)
    && Distinct(registry) && AllSurvive(registry)
  }

  /** The store holds exactly these credentials. */
  ghost predicate Holds(codec: RecordCodec, s: Store, contents: Contents) {
    ItemsHold(codec, s.items, contents) && Registers(s.registry, contents)
  }

  /** An id names a record that can be listed exactly when it holds no newline and ends in no white space. */
  lemma {:induction false} IdSurvives(id: Bytes)
    ensures Survives(ItemKey(id)) <==> '\n' !in id && WhiteEnd(id) == 0
  {
    assert PREFIX[|PREFIX| - 1] == '/' && PREFIX[0] == 's' && '\n' !in PREFIX;
    BehindVisible(PREFIX, id);
  }

  lemma BehindVisible(front: Bytes, id: Bytes)
    requires front != "" && '!' <= front[0] <= '~' && '!' <= front[|front| - 1] <= '~' && '\n' !in front
    ensures Survives(front + id) <==> '\n' !in id && WhiteEnd(id) == 0
  {
    WhiteEndBehind(front, id);
    assert (front + id)[0] == front[0];
    hide WhiteEnd;
  }

  lemma RegisteredOnce(registry: seq<Bytes>, key: Bytes)
    requires Distinct(registry) && AllSurvive(registry) && key !in registry
    ensures AllSurvive(Saved(registry + [key]))
    ensures Survives(key) ==> Saved(registry + [key]) == registry + [key]
    ensures !Survives(key) ==> key !in Saved(registry + [key])
  {
    SavedExact(registry + [key]);
    ListedSurvive(Joined(Once(registry + [key])));
    hide Survives, Listed, Joined, Once;
  }

  lemma {:induction false} PutItemsHold(codec: RecordCodec, items: map<Bytes, Bytes>, contents: Contents,
                                        r: CredentialRecord)
    requires codec.Lawful() && ItemsHold(codec, items, contents)
    ensures ItemsHold(codec, items[ItemKey(r.id) := codec.encode(r)], contents[r.id := r])
  {
    var items', contents' := items[ItemKey(r.id) := codec.encode(r)], contents[r.id := r];
    forall id | id in contents'
      ensures ItemKey(id) in items' && codec.decode(items'[ItemKey(id)]) == Some(contents'[id])
    {
      ItemKeyInjective(id, r.id);
    }
    ItemKeyInjective(r.id, r.id);
  }

  lemma {:induction false} PutRegisters(registry: seq<Bytes>, contents: Contents, r: CredentialRecord)
    requires Registers(registry, contents)
    ensures var key := ItemKey(r.id);
            Registers(if key in registry then registry else Saved(registry + [key]), contents[r.id := r])
            <==> Survives(key)
  {
    var key := ItemKey(r.id);
    hide Survives, Saved;
    assert key in registry ==> Survives(key);
    if key !in registry {
      RegisteredOnce(registry, key);
      assert r.id in contents[r.id := r];
    }
  }

  /** A put keeps the store equal to the map exactly when the record's key can be listed. */
  lemma {:induction false} PutHolds(codec: RecordCodec, s: Store, contents: Contents, r: CredentialRecord)
    requires codec.Lawful() && Holds(codec, s, contents)
    ensures Holds(codec, KeychainPut(codec, s, r), contents[r.id := r]) <==> Survives(ItemKey(r.id))
  {
    PutItemsHold(codec, s.items, contents, r);
    PutRegisters(s.registry, contents, r);
    hide ItemsHold, Registers, Survives, Saved, RecordCodec.Lawful;
  }

  /** Otherwise the record is there and is not listed. */
  lemma {:induction false} UnlistedPut(codec: RecordCodec, s: Store, contents: Contents, r: CredentialRecord)
    requires codec.Lawful() && Holds(codec, s, contents) && !Survives(ItemKey(r.id))
    ensures var s' := KeychainPut(codec, s, r);
            && KeychainGet(codec, s', r.id) == Ok(Some(r))
            && KeychainList(codec, s').Ok? && r !in KeychainList(codec, s').value
  {
    var s' := KeychainPut(codec, s, r);
    ItemKeyInjective(r.id, r.id);
    assert ItemKey(r.id) !in s.registry;
    RegisteredOnce(s.registry, ItemKey(r.id));
    forall id ensures KeychainGet(codec, s', id) == Ok(if id == r.id then Some(r)
                                                       else if id in contents then Some(contents[id]) else None)
    {
      ItemKeyInjective(id, r.id);
    }
    hide Survives, Saved, KeychainGet;
    GatheredOthers(codec, s', contents, r, |s'.registry|);
    assert s'.registry[..|s'.registry|] == s'.registry;
    SortedSame(Gathered(codec, s', s'.registry).value, r);
  }

  lemma SortedSame(records: seq<CredentialRecord>, r: CredentialRecord)
    ensures r in SortNewest(records) <==> r in records
  {
    SortNewestIs(records);
    assert r in SortNewest(records) <==> r in multiset(SortNewest(records));
    assert r in records <==> r in multiset(records);
  }

  lemma {:induction false} GatheredOthers(codec: RecordCodec, s: Store, contents: Contents, r: CredentialRecord, n: nat)
    requires n <= |s.registry| && ItemKey(r.id) !in s.registry && KeyedById(contents)
    requires forall id :: KeychainGet(codec, s, id) == Ok(if id == r.id then Some(r)
                                                          else if id in contents then Some(contents[id]) else None)
    ensures var g := Gathered(codec, s, s.registry[..n]); g.Ok? && r !in g.value
  {
    if n > 0 {
      var key, init := s.registry[n - 1], s.registry[..n - 1];
      assert s.registry[..n] == init + [key];
      GatheredOthers(codec, s, contents, r, n - 1);
      GatheredStep(codec, s, init, key);
      if StartsWith(key, PREFIX) {
        assert key == ItemKey(key[|PREFIX|..]);
      }
      hide KeychainGet, Gathered, ItemKey;
    }
  }

  /** An id that ends in a blank is such an id. */
  lemma BlankEndIsNotListed(id: Bytes)
    ensures !Survives(ItemKey(id + " "))
  {
    IdSurvives(id + " ");
    assert (id + " ")[|id + " "| - 1..] == " ";
  }

  lemma {:induction false} DroppedDistinct(keys: seq<Bytes>, key: Bytes)
    requires Distinct(keys)
    ensures Distinct(Dropped(keys, key))
  {
    if keys != [] {
      assert Distinct(keys[1..]);
      DroppedDistinct(keys[1..], key);
      var rest := Dropped(keys[1..], key);
      assert forall i :: 0 <= i < |rest| ==> rest[i] in rest;
      assert forall k :: k in keys[1..] ==> k != keys[0];
    }
  }

  lemma DroppedIsSaved(registry: seq<Bytes>, key: Bytes)
    requires Distinct(registry) && AllSurvive(registry)
    ensures Saved(Dropped(registry, key)) == Dropped(registry, key)
    ensures Distinct(Dropped(registry, key)) && AllSurvive(Dropped(registry, key))
  {
    DroppedDistinct(registry, key);
    SavedExact(Dropped(registry, key));
    hide Survives, Saved;
  }

  lemma {:induction false} DeleteItemsHold(codec: RecordCodec, items: map<Bytes, Bytes>, contents: Contents, id: Bytes)
    requires ItemsHold(codec, items, contents)
    ensures ItemsHold(codec, items - {ItemKey(id)}, contents - {id})
    ensures ItemKey(id) in items <==> id in contents
  {
    ItemKeyInjective(id, id);
    var items' := items - {ItemKey(id)};
    forall other | other in contents - {id}
      ensures ItemKey(other) in items' && codec.decode(items'[ItemKey(other)]) == Some(contents[other])
    {
      ItemKeyInjective(other, id);
    }
    forall key | key in items' && StartsWith(key, PREFIX) ensures key[|PREFIX|..] in contents - {id} {
      assert key == ItemKey(key[|PREFIX|..]);
    }
  }

  lemma {:induction false} DeleteRegisters(registry: seq<Bytes>, contents: Contents, id: Bytes)
    requires Registers(registry, contents) && id in contents
    ensures ItemKey(id) in registry && Registers(Saved(Dropped(registry, ItemKey(id))), contents - {id})
  {
    DroppedIsSaved(registry, ItemKey(id));
    hide Survives, AllSurvive, Saved;
    forall other | other in contents - {id} ensures ItemKey(other) in Dropped(registry, ItemKey(id)) {
      ItemKeyInjective(other, id);
    }
  }

  lemma {:induction false} DeleteHolds(codec: RecordCodec, s: Store, contents: Contents, id: Bytes)
    requires Holds(codec, s, contents)
    ensures Holds(codec, KeychainDelete(s, id).0, contents - {id})
    ensures KeychainDelete(s, id).1 == (id in contents)
  {
    hide ItemsHold, Registers, Saved, Dropped, ItemKey;
    DeleteItemsHold(codec, s.items, contents, id);
    if id in contents {
      DeleteRegisters(s.registry, contents, id);
    } else {
      assert contents - {id} == contents;
    }
  }

  lemma {:induction false} GetHolds(codec: RecordCodec, s: Store, contents: Contents, id: Bytes)
    requires Holds(codec, s, contents)
    ensures KeychainGet(codec, s, id) == Ok(if id in contents then Some(contents[id]) else None)
  {
    ItemKeyInjective(id, id);
  }

  lemma {:induction false} GatheredStep(codec: RecordCodec, s: Store, init: seq<Bytes>, key: Bytes)
    ensures Gathered(codec, s, init).Err? ==> Gathered(codec, s, init + [key]) == Gathered(codec, s, init)
    ensures Gathered(codec, s, init).Ok? ==>
              Gathered(codec, s, init + [key])
              == if !StartsWith(key, PREFIX) then Gathered(codec, s, init)
                 else match KeychainGet(codec, s, key[|PREFIX|..])
                   case Err(e) => Err(e)
                   case Ok(r) => Ok(if r.None? then Gathered(codec, s, init).value
                                    else Gathered(codec, s, init).value + [r.value])
  {
    hide KeychainGet;
    assert (init + [key])[..|init|] == init;
  }

  /** Every credential these keys name, once. */
  predicate Gathers(contents: Contents, keys: seq<Bytes>, records: seq<CredentialRecord>) {
    && DistinctIds(records)
    && (forall x :: x in records ==> x.id in contents && contents[x.id] == x && ItemKey(x.id) in keys)
    && (forall id :: id in contents && ItemKey(id) in keys ==> contents[id] in records)
  }

  lemma {:induction false} GathersOneMore(contents: Contents, init: seq<Bytes>, id: Bytes,
                                          records: seq<CredentialRecord>)
    requires KeyedById(contents) && Gathers(contents, init, records) && id in contents && ItemKey(id) !in init
    ensures Gathers(contents, init + [ItemKey(id)], records + [contents[id]])
  {
    assert forall i :: 0 <= i < |records| ==> records[i] in records;
    forall other | other in contents && ItemKey(other) in init + [ItemKey(id)]
      ensures contents[other] in records + [contents[id]]
    {
      ItemKeyInjective(other, id);
    }
    hide ItemKey;
  }

  lemma {:induction false} GathersNoMore(contents: Contents, init: seq<Bytes>, key: Bytes,
                                         records: seq<CredentialRecord>)
    requires Gathers(contents, init, records) && forall id :: id in contents ==> ItemKey(id) != key
    ensures Gathers(contents, init + [key], records)
  {
    hide ItemKey;
  }

  lemma {:induction false} GatheredHolds(codec: RecordCodec, s: Store, contents: Contents, n: nat)
    requires Holds(codec, s, contents) && n <= |s.registry|
    ensures var r := Gathered(codec, s, s.registry[..n]); r.Ok? && Gathers(contents, s.registry[..n], r.value)
  {
    hide Gathers, KeychainGet, StartsWith, ItemKey, Survives;
    if n == 0 {
      GathersNothing(contents);
      assert s.registry[..0] == [];
    } else {
      var init, key := s.registry[..n - 1], s.registry[n - 1];
      assert s.registry[..n] == init + [key] && key !in init;
      GatheredHolds(codec, s, contents, n - 1);
      GatheredStep(codec, s, init, key);
      var records := Gathered(codec, s, init).value;
      if StartsWith(key, PREFIX) {
        var id := KeyId(key);
        GetHolds(codec, s, contents, id);
        if id in contents {
          GathersOneMore(contents, init, id, records);
        } else {
          forall other | other in contents ensures ItemKey(other) != key {
            ItemKeyInjective(other, id);
          }
          GathersNoMore(contents, init, key, records);
        }
      } else {
        forall other | other in contents ensures ItemKey(other) != key {
          ItemKeyInjective(other, other);
        }
        GathersNoMore(contents, init, key, records);
      }
    }
  }

  lemma GathersNothing(contents: Contents)
    ensures Gathers(contents, [], [])
  {
  }

  lemma KeyId(key: Bytes) returns (id: Bytes)
    requires StartsWith(key, PREFIX)
    ensures |PREFIX| <= |key| && id == key[|PREFIX|..] && key == ItemKey(id)
  {
    id := key[|PREFIX|..];
  }

  lemma {:induction false} ListHolds(codec: RecordCodec, s: Store, contents: Contents)
    requires Holds(codec, s, contents)
    ensures KeychainList(codec, s).Ok? && IsListing(KeychainList(codec, s).value, contents)
  {
    GatheredHolds(codec, s, contents, |s.registry|);
    assert s.registry[..|s.registry|] == s.registry;
    var records := Gathered(codec, s, s.registry).value;
    forall id | id in contents ensures contents[id] in records {
      var k :| 0 <= k < |s.registry| && s.registry[k] == ItemKey(id);
      ItemKeyInjective(id, id);
    }
    SortedIsListing(records, contents);
  }

  lemma {:induction false} KeptIsListing(records: seq<CredentialRecord>, agentDid: Bytes, issuer: Bytes,
                                         credentialType: Bytes, now: int)
    requires NewestFirst(records) && DistinctIds(records)
    ensures var kept := Kept(records, agentDid, issuer, credentialType, now);
            && NewestFirst(kept) && DistinctIds(kept)
            && forall r :: r in kept <==> r in records && Applies(r, agentDid, issuer, credentialType, now)
    decreases |records|
  {
    if records != [] {
      var init, last := records[..|records| - 1], records[|records| - 1];
      KeptIsListing(init, agentDid, issuer, credentialType, now);
      var kept := Kept(init, agentDid, issuer, credentialType, now);
      assert records == init + [last];
      forall i | 0 <= i < |kept| ensures kept[i].id != last.id && kept[i].createdAt >= last.createdAt {
        assert kept[i] in kept;
        assert kept[i] in init;
      }
    }
  }

  // --- Both vaults, over every sequence of operations ----------------------------------------

  datatype Op = Put(record: CredentialRecord) | Delete(id: Bytes)

  function StoreAfter(codec: RecordCodec, s: Store, ops: seq<Op>): Store {
    if ops == [] then s else
    var before := StoreAfter(codec, s, ops[..|ops| - 1]);
    match ops[|ops| - 1]
    case Put(r) => KeychainPut(codec, before, r)
    case Delete(id) => KeychainDelete(before, id).0
  }

  function RowsAfter(rows: Contents, ops: seq<Op>): Contents {
    if ops == [] then rows else
    var before := RowsAfter(rows, ops[..|ops| - 1]);
    match ops[|ops| - 1]
    case Put(r) => before[r.id := r]
    case Delete(id) => before - {id}
  }

  /** What is put has ids without newlines and without white space at their ends. */
  predicate CanBeListed(ops: seq<Op>) {
    forall op :: op in ops && op.Put? ==> Survives(ItemKey(op.record.id))
  }

  /** All along a sequence of operations the store equals the map exactly when everything put can be
      listed. */
  lemma {:induction false} StoreFollowsExactly(codec: RecordCodec, s: Store, rows: Contents, ops: seq<Op>)
    requires codec.Lawful() && Holds(codec, s, rows)
    ensures (forall n: nat :: n <= |ops| ==> Holds(codec, StoreAfter(codec, s, ops[..n]), RowsAfter(rows, ops[..n])))
            <==> CanBeListed(ops)
  {
    if CanBeListed(ops) {
      forall n: nat | n <= |ops| ensures Holds(codec, StoreAfter(codec, s, ops[..n]), RowsAfter(rows, ops[..n])) {
        StoreFollowsRows(codec, s, rows, ops[..n]);
      }
    } else {
      var k :| 0 <= k < |ops| && ops[k].Put? && !Survives(ItemKey(ops[k].record.id));
      assert ops[..k + 1][..k] == ops[..k];
      hide Holds, Survives;
      if Holds(codec, StoreAfter(codec, s, ops[..k]), RowsAfter(rows, ops[..k])) {
        PutHolds(codec, StoreAfter(codec, s, ops[..k]), RowsAfter(rows, ops[..k]), ops[k].record);
      }
    }
  }

  lemma {:induction false} StoreFollowsRows(codec: RecordCodec, s: Store, rows: Contents, ops: seq<Op>)
    requires codec.Lawful() && Holds(codec, s, rows) && CanBeListed(ops)
    ensures Holds(codec, StoreAfter(codec, s, ops), RowsAfter(rows, ops))
    decreases |ops|
  {
    if ops != [] {
      var before := ops[..|ops| - 1];
      assert ops[|ops| - 1] in ops && CanBeListed(before);
      StoreFollowsRows(codec, s, rows, before);
      match ops[|ops| - 1]
      case Put(r) => PutHolds(codec, StoreAfter(codec, s, before), RowsAfter(rows, before), r);
      case Delete(id) => DeleteHolds(codec, StoreAfter(codec, s, before), RowsAfter(rows, before), id);
    }
  }

  /** From equal contents and after any puts and deletes, both vaults answer alike: `get` the same
      record, `list` the same records newest first, `find_valid` the same records newest first,
      whatever order the table's engine visits its rows in and whatever else the store holds. */
  lemma {:induction false} VaultsAnswerAlike(codec: RecordCodec, s: Store, rows: Contents, ops: seq<Op>, id: Bytes,
                                             agentDid: Bytes, issuer: Bytes, credentialType: Bytes, now: int,
                                             sqlList: seq<CredentialRecord>, sqlFound: seq<CredentialRecord>)
    requires codec.Lawful() && Holds(codec, s, rows) && CanBeListed(ops)
    requires IsListing(sqlList, RowsAfter(rows, ops))
    requires IsListing(sqlFound, Applicable(RowsAfter(rows, ops), agentDid, issuer, credentialType, now))
    ensures var s', rows' := StoreAfter(codec, s, ops), RowsAfter(rows, ops);
            var list := KeychainList(codec, s');
            && KeychainGet(codec, s', id) == Ok(if id in rows' then Some(rows'[id]) else None)
            && list.Ok? && NewestFirst(list.value) && multiset(list.value) == multiset(sqlList)
            && var found := Kept(list.value, agentDid, issuer, credentialType, now);
               NewestFirst(found) && multiset(found) == multiset(sqlFound)
  {
    var s', rows' := StoreAfter(codec, s, ops), RowsAfter(rows, ops);
    StoreFollowsRows(codec, s, rows, ops);
    GetHolds(codec, s', rows', id);
    ListHolds(codec, s', rows');
    var list := KeychainList(codec, s').value;
    EnumerationsAgree(list, sqlList, rows');
    KeptIsListing(list, agentDid, issuer, credentialType, now);
    var found := Kept(list, agentDid, issuer, credentialType, now);
    EnumerationsAgree(found, sqlFound, Applicable(rows', agentDid, issuer, credentialType, now));
  }
}
