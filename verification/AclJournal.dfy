/**
 Undoing sandbox grants on shared paths: what one revoke, one clean exit and one recovery pass do
 to the access lists and to the journal files.

 The disk is the access list of each path and the journal files. A Windows call that may fail is a
 boolean chosen by the outside world. Each access-list edit is one step, as within one process.
 */
module AclJournal {
  import opened Wrappers
  import opened Text
  import opened JournalMac

  type Path = Bytes
  type Sid = Bytes

  datatype Ace = Ace(sid: Sid, mask: nat)

  type Acl = seq<Ace>

  /** Journal files are named after the process that writes them and the nanosecond. */
  datatype FileName = FileName(pid: nat, nanos: nat)

  datatype Entry = Entry(grant: GrantEntry, tag: Bytes)

  datatype Disk = Disk(
    acls: map<Path, Acl>,
    files: map<FileName, Entry>,
    /** Files that lie among the others and hold no entry: torn in writing, or put there. */
    junk: set<FileName>)

  /** How entries are written and when one read back is believed. */
  datatype Journaling = Journaling(write: GrantEntry -> Entry, trusts: Entry -> bool, isSandbox: Sid -> bool) {
    /** What is written about a sandbox is believed when it is read back. */
    ghost predicate Sound() {
      forall grant: GrantEntry :: isSandbox(grant.sid) ==> write(grant).grant == grant && trusts(write(grant))
    }
  }

  /** The tagged journal: one key per machine, fixed once the key file exists. */
  function TaggedJournal(mac: (Bytes, Bytes) -> Bytes, key: Bytes): Journaling {
    Journaling((grant: GrantEntry) => Entry(grant, mac(key, Stream(GrantFields(grant)))),
               (e: Entry) => Trusted(mac, key, e.grant, e.tag),
               (sid: Sid) => IsSandboxSid(sid))
  }

  lemma TaggedJournalIsSound(mac: (Bytes, Bytes) -> Bytes, key: Bytes)
    ensures TaggedJournal(mac, key).Sound()
  {
  }

  // --- Access lists --------------------------------------------------------------------------

  /** Every entry but those of `sids`, in order. */
  function Without(acl: Acl, sids: set<Sid>): (rest: Acl)
    ensures forall ace :: ace in rest <==> ace in acl && ace.sid !in sids
  {
    if acl == [] then [] else
    (if acl[0].sid in sids then [] else [acl[0]]) + Without(acl[1..], sids)
  }

  lemma {:induction false} WithoutAppend(a: Acl, b: Acl, sids: set<Sid>)
    ensures Without(a + b, sids) == Without(a, sids) + Without(b, sids)
  {
    if a == [] {
      assert a + b == b;
    } else {
      assert (a + b)[1..] == a[1..] + b;
      WithoutAppend(a[1..], b, sids);
    }
  }

  /** An entry that stays stands behind exactly those that stay of the entries before it, and before
      exactly those that stay of the entries after it; one that goes leaves no gap. */
  lemma {:induction false} WithoutKeepsOrder(acl: Acl, sids: set<Sid>, i: nat)
    requires i < |acl|
    ensures Without(acl, sids)
            == Without(acl[..i], sids) + (if acl[i].sid in sids then [] else [acl[i]]) + Without(acl[i + 1..], sids)
  {
    assert acl == acl[..i] + ([acl[i]] + acl[i + 1..]);
    WithoutAppend(acl[..i], [acl[i]] + acl[i + 1..], sids);
    WithoutAppend([acl[i]], acl[i + 1..], sids);
    WithoutOne(acl[i], sids);
    hide Without;
  }

  lemma WithoutOne(ace: Ace, sids: set<Sid>)
    ensures Without([ace], sids) == if ace.sid in sids then [] else [ace]
  {
    assert [ace][1..] == [];
  }

  lemma {:induction false} WithoutTwice(acl: Acl, a: set<Sid>, b: set<Sid>)
    ensures Without(Without(acl, a), b) == Without(acl, a + b)
  {
    if acl != [] {
      WithoutTwice(acl[1..], a, b);
      var rest := Without(acl[1..], a);
      if acl[0].sid !in a {
        assert ([acl[0]] + rest)[1..] == rest;
      } else {
        assert [] + rest == rest;
      }
    }
  }

  lemma {:induction false} WithoutNone(acl: Acl, sids: set<Sid>)
    requires forall ace :: ace in acl ==> ace.sid !in sids
    ensures Without(acl, sids) == acl
  {
    if acl != [] {
      assert acl[0] in acl;
      WithoutNone(acl[1..], sids);
    }
  }

  function WithoutOn(acls: map<Path, Acl>, path: Path, sid: Sid): (r: map<Path, Acl>)
    ensures r.Keys == acls.Keys
  {
    if path in acls then acls[path := Without(acls[path], {sid})] else acls
  }

  /** `revoke_sid_access`: it fails when the path is gone, or when Windows says so. */
  function RevokeFails(d: Disk, path: Path, works: bool): bool {
    !works || path !in d.acls
  }

  function Revoke(d: Disk, path: Path, sid: Sid): Disk {
    d.(acls := WithoutOn(d.acls, path, sid))
  }

  function RemoveFile(d: Disk, file: FileName, works: bool): Disk {
    if works then d.(files := d.files - {file}) else d
  }

  // --- A clean exit --------------------------------------------------------------------------

  datatype Rollback = Rollback(path: Path, sid: Sid, journal: Option<FileName>)

  /** What the outside world does to one rollback: the revoke works, then the file can be removed. */
  datatype Luck = Luck(revokes: bool, removes: bool)

  function RestoreOne(d: Disk, rollback: Rollback, luck: Luck): Disk {
    if RevokeFails(d, rollback.path, luck.revokes) then d else
    var d' := Revoke(d, rollback.path, rollback.sid);
    if rollback.journal.Some? then RemoveFile(d', rollback.journal.value, luck.removes) else d'
  }

  function Restore(d: Disk, rollbacks: seq<Rollback>, luck: nat -> Luck, from: nat): Disk
    requires from <= |rollbacks|
    decreases |rollbacks| - from
  {
    if from == |rollbacks| then d else Restore(RestoreOne(d, rollbacks[from], luck(from)), rollbacks, luck, from + 1)
  }

  // --- A grant -------------------------------------------------------------------------------

  datatype JournalError = NotWritten | Unreadable(file: FileName) | NotGranted | NoKey | NotListed

  /** A write can fail before it begins, or half-way. */
  datatype Write = Written | Torn | Refused

  /** `persist_windows_acl_rollback`: once journaled, a rollback is not journaled again. */
  function PersistEntry(j: Journaling, d: Disk, rollback: Rollback, profile: Bytes, file: FileName, write: Write)
    : (Disk, Result<Rollback, JournalError>)
  {
    if rollback.journal.Some? then (d, Ok(rollback)) else
    match write
    case Refused => (d, Err(NotWritten))
    case Torn => (d.(files := d.files - {file}, junk := d.junk + {file}), Err(NotWritten))
    case Written =>
      (d.(files := d.files[file := j.write(GrantEntry(rollback.path, rollback.sid, profile, file.pid))],
          junk := d.junk - {file}),
       Ok(rollback.(journal := Some(file))))
  }

  /** What the outside world does to one grant: what becomes of the journal file, and whether the list
      is edited, to `acl`, which differs in this sandbox's own entries only. */
  datatype GrantLuck = GrantLuck(journals: Write, edits: bool, acl: Acl)

  /** `grant_path_access`: the journal first, then the list; a journal file stays when the edit fails. */
  function GrantAccess(j: Journaling, d: Disk, path: Path, sid: Sid, profile: Bytes, file: FileName, luck: GrantLuck)
    : (Disk, Result<Rollback, JournalError>)
  {
    var (d', r) := PersistEntry(j, d, Rollback(path, sid, None), profile, file, luck.journals);
    if r.Err? then (d', r)
    else if !luck.edits || path !in d.acls then (d', Err(NotGranted))
    else (d'.(acls := d'.acls[path := luck.acl]), r)
  }

  // --- Recovery ------------------------------------------------------------------------------

  /** An entry recovery acts on: its owner's process is gone and it is believed. */
  predicate Stale(j: Journaling, e: Entry, livePids: set<nat>) {
    e.grant.ownerPid !in livePids && j.trusts(e)
  }

  /** What the outside world does to one journal file in recovery. */
  datatype Chance = Chance(opens: bool, revokes: bool, removes: bool)

  predicate CanRead(d: Disk, file: FileName, chance: FileName -> Chance) {
    (file in d.files || file in d.junk) && chance(file).opens
  }

  function RecoverOne(j: Journaling, d: Disk, file: FileName, livePids: set<nat>, chance: Chance): (Disk, nat)
    requires file in d.files
  {
    var e := d.files[file];
    if !Stale(j, e, livePids) || RevokeFails(d, e.grant.path, chance.revokes) then (d, 0)
    else (RemoveFile(Revoke(d, e.grant.path, e.grant.sid), file, chance.removes), 1)
  }

  /** One pass over the journal directory, as it was listed. A file that cannot be read, because
      another process has dealt with it meanwhile or for any other reason, ends the pass there; one
      that can be read and holds no entry is left alone. */
  function Recover(j: Journaling, d: Disk, listing: seq<FileName>, livePids: set<nat>, chance: FileName -> Chance)
    : (Disk, Result<nat, JournalError>)
    decreases |listing|
  {
    if listing == [] then (d, Ok(0)) else
    var (d1, before) := Recover(j, d, listing[..|listing| - 1], livePids, chance);
    if before.Err? then (d1, before) else
    var file := listing[|listing| - 1];
    if !CanRead(d1, file, chance) then (d1, Err(Unreadable(file)))
    else if file !in d1.files then (d1, before) else
    var (d2, n) := RecoverOne(j, d1, file, livePids, chance(file));
    (d2, Ok(before.value + n))
  }

  /** How far recovery comes before its pass: there may be nothing to do, the key that tells true
      entries may not load, and the directory may not be listed. */
  datatype Directory = NoDirectory | Keyless | Unlisted | Lists(listing: seq<FileName>)

  /** `recover_windows_acl_rollbacks`. */
  function RecoverAll(j: Journaling, d: Disk, dir: Directory, livePids: set<nat>, chance: FileName -> Chance)
    : (Disk, Result<nat, JournalError>)
  {
    match dir
    case NoDirectory => (d, Ok(0))
    case Keyless => (d, Err(NoKey))
    case Unlisted => (d, Err(NotListed))
    case Lists(listing) => Recover(j, d, listing, livePids, chance)
  }

  /** What a pass that ended early did is what a pass over fewer files does. */
  lemma {:induction false} EndedPassIsPrefix(j: Journaling, d: Disk, listing: seq<FileName>, livePids: set<nat>,
                                             chance: FileName -> Chance) returns (n: nat)
    ensures n <= |listing| && Recover(j, d, listing[..n], livePids, chance).1.Ok?
    ensures Recover(j, d, listing[..n], livePids, chance).0 == Recover(j, d, listing, livePids, chance).0
    ensures Recover(j, d, listing, livePids, chance).1.Err? ==>
              && n < |listing| && Recover(j, d, listing, livePids, chance).1 == Err(Unreadable(listing[n]))
              && !CanRead(Recover(j, d, listing[..n], livePids, chance).0, listing[n], chance)
    decreases |listing|
  {
    if Recover(j, d, listing, livePids, chance).1.Ok? {
      n := |listing|;
      assert listing[..n] == listing;
    } else {
      var before := listing[..|listing| - 1];
      n := |listing| - 1;
      if Recover(j, d, before, livePids, chance).1.Err? {
        n := EndedPassIsPrefix(j, d, before, livePids, chance);
        assert before[..n] == listing[..n];
      }
    }
  }

  lemma RecoverStep(j: Journaling, d: Disk, listing: seq<FileName>, livePids: set<nat>, chance: FileName -> Chance,
                    i: nat)
    requires i < |listing|
    ensures var (d1, before) := Recover(j, d, listing[..i], livePids, chance);
            Recover(j, d, listing[..i + 1], livePids, chance)
            == if before.Err? then (d1, before)
               else if !CanRead(d1, listing[i], chance) then (d1, Err(Unreadable(listing[i])))
               else if listing[i] !in d1.files then (d1, before)
               else
                 var (d2, n) := RecoverOne(j, d1, listing[i], livePids, chance(listing[i]));
                 (d2, Ok(before.value + n))
  {
    assert listing[..i + 1][..i] == listing[..i];
  }

  class Machine {
    var acls: map<Path, Acl>
    var files: map<FileName, Entry>
    var junk: set<FileName>
    const mac: (Bytes, Bytes) -> Bytes
    const key: Bytes

    function Journal(): Journaling {
      TaggedJournal(mac, key)
    }

    ghost function View(): Disk
      reads this
    {
      Disk(acls, files, junk)
    }

    constructor (acls: map<Path, Acl>, junk: set<FileName>, mac: (Bytes, Bytes) -> Bytes, key: Bytes)
      ensures View() == Disk(acls, map[], junk) && this.mac == mac && this.key == key
    {
      this.acls := acls;
      this.files, this.junk := map[], junk;
      this.mac, this.key := mac, key;
    }

    method RevokeSidAccess(path: Path, sid: Sid, works: bool) returns (ok: bool)
      modifies this`acls
      ensures ok == !RevokeFails(old(View()), path, works)
      ensures View() == if ok then Revoke(old(View()), path, sid) else old(View())
    {
      if !works || path !in acls {
        return false;
      }
      acls := acls[path := Without(acls[path], {sid})];
      return true;
    }

    method Persist(rollback: Rollback, profile: Bytes, pid: nat, nanos: nat, write: Write)
      returns (r: Result<Rollback, JournalError>)
      modifies this`files, this`junk
      ensures (View(), r) == PersistEntry(Journal(), old(View()), rollback, profile, FileName(pid, nanos), write)
    {
      if rollback.journal.Some? {
        return Ok(rollback);
      }
      if write.Refused? {
        return Err(NotWritten);
      }
      var file := FileName(pid, nanos);
      var grant := GrantEntry(rollback.path, rollback.sid, profile, pid);
      var fed := Feed(GrantFields(grant));
      if write.Torn? {
        files, junk := files - {file}, junk + {file};
        return Err(NotWritten);
      }
      files, junk := files[file := Entry(grant, mac(key, fed))], junk - {file};
      return Ok(rollback.(journal := Some(file)));
    }

    /** Whatever fails, the list changes only once the entry to undo it is written. */
    method GrantPathAccess(path: Path, sid: Sid, profile: Bytes, pid: nat, nanos: nat, luck: GrantLuck)
      returns (r: Result<Rollback, JournalError>)
      modifies this
      ensures (View(), r) == GrantAccess(Journal(), old(View()), path, sid, profile, FileName(pid, nanos), luck)
      ensures acls != old(acls) ==>
                files == old(files)[FileName(pid, nanos) := Journal().write(GrantEntry(path, sid, profile, pid))]
    {
      var rollback :- Persist(Rollback(path, sid, None), profile, pid, nanos, luck.journals);
      if !luck.edits || path !in acls {
        return Err(NotGranted);
      }
      acls := acls[path := luck.acl];
      return Ok(rollback);
    }

    method RecoverFile(file: FileName, livePids: set<nat>, chance: Chance) returns (restored: nat)
      requires file in files
      modifies this
      ensures (View(), restored) == RecoverOne(Journal(), old(View()), file, livePids, chance)
    {
      var e := files[file];
      if !Stale(Journal(), e, livePids) {
        return 0;
      }
      var ok := RevokeSidAccess(e.grant.path, e.grant.sid, chance.revokes);
      if !ok {
        return 0;
      }
      if chance.removes {
        files := files - {file};
      }
      return 1;
    }

    /** The loop over the journal directory, deleting the files it has dealt with. */
    method RecoverListed(listing: seq<FileName>, livePids: set<nat>, chance: FileName -> Chance)
      returns (r: Result<nat, JournalError>)
      modifies this
      ensures (View(), r) == Recover(Journal(), old(View()), listing, livePids, chance)
    {
      hide RecoverOne;
      var restored := 0;
      for i := 0 to |listing|
        invariant 0 <= i <= |listing|
        invariant (View(), Ok(restored)) == Recover(Journal(), old(View()), listing[..i], livePids, chance)
      {
        RecoverStep(Journal(), old(View()), listing, livePids, chance, i);
        var file := listing[i];
        if !((file in files || file in junk) && chance(file).opens) {
          EndedPassStays(Journal(), old(View()), listing, livePids, chance, i + 1);
          return Err(Unreadable(file));
        }
        if file in files {
          var one := RecoverFile(file, livePids, chance(file));
          restored := restored + one;
        }
      }
      assert listing[..|listing|] == listing;
      return Ok(restored);
    }

    method RecoverRollbacks(dir: Directory, livePids: set<nat>, chance: FileName -> Chance)
      returns (r: Result<nat, JournalError>)
      modifies this
      ensures (View(), r) == RecoverAll(Journal(), old(View()), dir, livePids, chance)
    {
      match dir {
        case NoDirectory => return Ok(0);
        case Keyless => return Err(NoKey);
        case Unlisted => return Err(NotListed);
        case Lists(listing) => r := RecoverListed(listing, livePids, chance);
      }
    }
  }

  /** Files after the one a pass ended at are not looked at. */
  lemma {:induction false} EndedPassStays(j: Journaling, d: Disk, listing: seq<FileName>, livePids: set<nat>,
                                          chance: FileName -> Chance, n: nat)
    requires n <= |listing| && Recover(j, d, listing[..n], livePids, chance).1.Err?
    ensures Recover(j, d, listing, livePids, chance) == Recover(j, d, listing[..n], livePids, chance)
    decreases |listing|
  {
    if n == |listing| {
      assert listing[..n] == listing;
    } else {
      assert listing[..|listing| - 1][..n] == listing[..n];
      EndedPassStays(j, d, listing[..|listing| - 1], livePids, chance, n);
    }
  }

  /** A running sandbox, and the grants to undo when it goes. */
  class WindowsChild {
    var rollbacks: seq<Rollback>
    var cleaned: bool

    constructor (rollbacks: seq<Rollback>)
      ensures this.rollbacks == rollbacks && !cleaned
    {
      this.rollbacks := rollbacks;
      cleaned := false;
    }

    method RestoreOneOn(machine: Machine, rollback: Rollback, luck: Luck)
      modifies machine
      ensures machine.View() == RestoreOne(old(machine.View()), rollback, luck)
    {
      var ok := machine.RevokeSidAccess(rollback.path, rollback.sid, luck.revokes);
      if ok && rollback.journal.Some? && luck.removes {
        machine.files := machine.files - {rollback.journal.value};
      }
    }

    /** Runs once: the rollbacks are drained in order, and later calls do nothing. */
    method Cleanup(machine: Machine, luck: nat -> Luck)
      modifies this, machine
      ensures cleaned
      ensures rollbacks == if old(cleaned) then old(rollbacks) else []
      ensures machine.View()
              == if old(cleaned) then old(machine.View()) else Restore(old(machine.View()), old(rollbacks), luck, 0)
    {
      if cleaned {
        return;
      }
      cleaned := true;
      var all := rollbacks;
      rollbacks := [];
      for i := 0 to |all|
        invariant 0 <= i <= |all| && cleaned && rollbacks == []
        invariant Restore(machine.View(), all, luck, i) == Restore(old(machine.View()), all, luck, 0)
      {
        RestoreOneOn(machine, all[i], luck(i));
      }
    }
  }

  // --- What a pass achieves ------------------------------------------------------------------

  /** How far a pass comes: to the first file that is gone or cannot be read. */
  function Reach(d: Disk, listing: seq<FileName>, chance: FileName -> Chance): (n: nat)
    ensures n <= |listing|
    ensures forall k :: 0 <= k < n ==> CanRead(d, listing[k], chance)
    ensures n < |listing| ==> !CanRead(d, listing[n], chance)
  {
    if listing == [] then 0 else
    var init, file := listing[..|listing| - 1], listing[|listing| - 1];
    var n := Reach(d, init, chance);
    if n < |init| || !CanRead(d, file, chance) then n else n + 1
  }

  /** Recovery acts on this file, and its revoke works. */
  predicate Revoked(j: Journaling, d: Disk, file: FileName, livePids: set<nat>, chance: FileName -> Chance) {
    file in d.files && Stale(j, d.files[file], livePids) && chance(file).revokes
  }

  /** The SIDs that the revoked entries of these files name for `path`. */
  ghost function RevokedSids(j: Journaling, d: Disk, files: seq<FileName>, livePids: set<nat>,
                             chance: FileName -> Chance, path: Path): set<Sid>
  {
    set file | file in files && Revoked(j, d, file, livePids, chance) && d.files[file].grant.path == path
      :: d.files[file].grant.sid
  }

  /** What a pass over `files`, all of them reached, leaves of the access lists. */
  ghost predicate ListsAfter(j: Journaling, d: Disk, d': Disk, files: seq<FileName>, livePids: set<nat>,
                             chance: FileName -> Chance)
  {
    && d'.acls.Keys == d.acls.Keys
    && forall path :: path in d.acls ==>
         d'.acls[path] == Without(d.acls[path], RevokedSids(j, d, files, livePids, chance, path))
  }

  /** What it leaves of the journal. */
  predicate FilesAfter(j: Journaling, d: Disk, d': Disk, files: seq<FileName>, livePids: set<nat>,
                       chance: FileName -> Chance)
  {
    && d'.junk == d.junk
    && (forall file :: file in d'.files ==> file in d.files && d'.files[file] == d.files[file])
    && (forall file :: file in d.files ==>
          (file !in d'.files <==>
            && file in files && Revoked(j, d, file, livePids, chance) && chance(file).removes
            && d.files[file].grant.path in d.acls))
  }

  /** A pass, whatever fails in it: it completes exactly when every listed file is still there and can
      be read, and names the first that is not. Up to there each path is stripped of exactly the SIDs
      that entries revoked for it name, every other entry stays where it is, and the files that go are
      exactly those dealt with that could be removed. */
  lemma {:induction false} RecoverIs(j: Journaling, d: Disk, listing: seq<FileName>, livePids: set<nat>,
                                     chance: FileName -> Chance)
    requires Distinct(listing)
    ensures var ((d', r), n) := (Recover(j, d, listing, livePids, chance), Reach(d, listing, chance));
            && (r.Ok? <==> n == |listing|) && (r.Err? ==> n < |listing| && r == Err(Unreadable(listing[n])))
            && ListsAfter(j, d, d', listing[..n], livePids, chance)
            && FilesAfter(j, d, d', listing[..n], livePids, chance)
    decreases |listing|
  {
    if listing == [] {
      NothingPassed(j, d, livePids, chance);
    } else {
      var init, file := listing[..|listing| - 1], listing[|listing| - 1];
      RecoverIs(j, d, init, livePids, chance);
      var n := Reach(d, init, chance);
      assert init[..n] == listing[..n];
      var (d1, r1) := Recover(j, d, init, livePids, chance);
      if n == |init| {
        assert init[..n] == init;
        assert file !in init;
        assert file in d1.files <==> file in d.files;
        assert listing[..|listing|] == init + [file];
        if CanRead(d, file, chance) {
          if file in d.files {
            OneMoreOnLists(j, d, d1, init, file, livePids, chance);
            OneMoreInFiles(j, d, d1, init, file, livePids, chance);
          } else {
            JunkPassed(j, d, d1, init, file, livePids, chance);
          }
        }
      }
      hide ListsAfter, FilesAfter;
    }
  }

  /** A pass completes exactly when every listed file is still there and can be read, entry or not. */
  lemma {:induction false} PassCompletesExactly(j: Journaling, d: Disk, listing: seq<FileName>, livePids: set<nat>,
                                                chance: FileName -> Chance)
    requires Distinct(listing)
    ensures Recover(j, d, listing, livePids, chance).1.Ok?
            <==> forall file :: file in listing ==> CanRead(d, file, chance)
  {
    RecoverIs(j, d, listing, livePids, chance);
    var n := Reach(d, listing, chance);
    if n < |listing| {
      assert listing[n] in listing;
    }
  }

  lemma {:induction false} NothingPassed(j: Journaling, d: Disk, livePids: set<nat>, chance: FileName -> Chance)
    ensures ListsAfter(j, d, d, [], livePids, chance) && FilesAfter(j, d, d, [], livePids, chance)
  {
    forall path | path in d.acls
      ensures d.acls[path] == Without(d.acls[path], RevokedSids(j, d, [], livePids, chance, path))
    {
      WithoutNone(d.acls[path], RevokedSids(j, d, [], livePids, chance, path));
    }
  }

  lemma {:induction false} JunkPassed(j: Journaling, d: Disk, d1: Disk, files: seq<FileName>, file: FileName,
                                      livePids: set<nat>, chance: FileName -> Chance)
    requires ListsAfter(j, d, d1, files, livePids, chance) && FilesAfter(j, d, d1, files, livePids, chance)
    requires file !in d.files
    ensures ListsAfter(j, d, d1, files + [file], livePids, chance)
    ensures FilesAfter(j, d, d1, files + [file], livePids, chance)
  {
    assert forall f :: f in files + [file] <==> f in files || f == file;
    forall path ensures RevokedSids(j, d, files + [file], livePids, chance, path)
                        == RevokedSids(j, d, files, livePids, chance, path)
    {
      OneMoreRevoked(j, d, files, file, livePids, chance, path);
    }
    hide RevokedSids, Without;
  }

  lemma {:induction false} OneMoreOnLists(j: Journaling, d: Disk, d1: Disk, files: seq<FileName>, file: FileName,
                                          livePids: set<nat>, chance: FileName -> Chance)
    requires ListsAfter(j, d, d1, files, livePids, chance)
    requires file in d.files && file in d1.files && d1.files[file] == d.files[file]
    ensures ListsAfter(j, d, RecoverOne(j, d1, file, livePids, chance(file)).0, files + [file], livePids, chance)
  {
    var d2 := RecoverOne(j, d1, file, livePids, chance(file)).0;
    forall path | path in d.acls
      ensures d2.acls[path] == Without(d.acls[path], RevokedSids(j, d, files + [file], livePids, chance, path))
    {
      OneMoreRevoked(j, d, files, file, livePids, chance, path);
      var done := RevokedSids(j, d, files, livePids, chance, path);
      if Revoked(j, d, file, livePids, chance) && d.files[file].grant.path == path {
        WithoutTwice(d.acls[path], done, {d.files[file].grant.sid});
      } else {
        assert d2.acls[path] == d1.acls[path] && done + {} == done;
      }
    }
    hide Without, RevokedSids;
  }

  lemma {:induction false} OneMoreInFiles(j: Journaling, d: Disk, d1: Disk, files: seq<FileName>, file: FileName,
                                          livePids: set<nat>, chance: FileName -> Chance)
    requires FilesAfter(j, d, d1, files, livePids, chance) && d1.acls.Keys == d.acls.Keys
    requires file in d1.files && file !in files
    ensures FilesAfter(j, d, RecoverOne(j, d1, file, livePids, chance(file)).0, files + [file], livePids, chance)
  {
    assert forall f :: f in files + [file] <==> f in files || f == file;
    hide Stale, Without;
  }

  lemma {:induction false} OneMoreRevoked(j: Journaling, d: Disk, files: seq<FileName>, file: FileName,
                                          livePids: set<nat>, chance: FileName -> Chance, path: Path)
    ensures RevokedSids(j, d, files + [file], livePids, chance, path)
            == RevokedSids(j, d, files, livePids, chance, path)
               + if Revoked(j, d, file, livePids, chance) && d.files[file].grant.path == path
                 then {d.files[file].grant.sid} else {}
  {
    assert forall f :: f in files + [file] <==> f in files || f == file;
  }

  // --- What a clean exit achieves ------------------------------------------------------------

  /** One of the rollbacks from `from` on is of this path, and its revoke works. */
  predicate RolledBack(rollbacks: seq<Rollback>, luck: nat -> Luck, from: nat, path: Path)
    requires from <= |rollbacks|
  {
    exists k :: from <= k < |rollbacks| && rollbacks[k].path == path && luck(k).revokes
  }

  lemma {:induction false} RolledBackStep(rollbacks: seq<Rollback>, luck: nat -> Luck, from: nat, path: Path)
    requires from < |rollbacks|
    ensures RolledBack(rollbacks, luck, from, path)
            <==> (rollbacks[from].path == path && luck(from).revokes) || RolledBack(rollbacks, luck, from + 1, path)
  {
  }

  /** On every path for which a revoke works the sandbox's entries are gone; nothing else is. */
  predicate Undone(d: Disk, d': Disk, rollbacks: seq<Rollback>, luck: nat -> Luck, from: nat, sid: Sid)
    requires from <= |rollbacks|
  {
    && d'.acls.Keys == d.acls.Keys
    && forall path :: path in d.acls ==>
         d'.acls[path]
         == if RolledBack(rollbacks, luck, from, path) then Without(d.acls[path], {sid}) else d.acls[path]
  }

  lemma {:induction false} UndoneStep(d: Disk, d1: Disk, d': Disk, rollbacks: seq<Rollback>, luck: nat -> Luck,
                                      from: nat, sid: Sid)
    requires from < |rollbacks| && rollbacks[from].sid == sid && Undone(d1, d', rollbacks, luck, from + 1, sid)
    requires d1.acls == if luck(from).revokes then WithoutOn(d.acls, rollbacks[from].path, sid) else d.acls
    ensures Undone(d, d', rollbacks, luck, from, sid)
  {
    hide RolledBack, Without;
    forall path | path in d.acls
      ensures d'.acls[path]
              == if RolledBack(rollbacks, luck, from, path) then Without(d.acls[path], {sid}) else d.acls[path]
    {
      RolledBackStep(rollbacks, luck, from, path);
      WithoutTwice(d.acls[path], {sid}, {sid});
      assert {sid} + {sid} == {sid};
    }
  }

  /** What a clean exit does to the lists, whatever fails in it. */
  lemma {:induction false} RestoreIs(d: Disk, rollbacks: seq<Rollback>, sid: Sid, luck: nat -> Luck, from: nat)
    requires from <= |rollbacks| && forall k :: 0 <= k < |rollbacks| ==> rollbacks[k].sid == sid
    ensures Undone(d, Restore(d, rollbacks, luck, from), rollbacks, luck, from, sid)
    decreases |rollbacks| - from
  {
    if from < |rollbacks| {
      hide Restore, RestoreOne, Undone, Without;
      var d1 := RestoreOne(d, rollbacks[from], luck(from));
      RestoreStep(d, rollbacks, luck, from);
      RestoreOneRevokes(d, rollbacks[from], luck(from));
      RestoreIs(d1, rollbacks, sid, luck, from + 1);
      UndoneStep(d, d1, Restore(d1, rollbacks, luck, from + 1), rollbacks, luck, from, sid);
    }
  }

  lemma RestoreStep(d: Disk, rollbacks: seq<Rollback>, luck: nat -> Luck, from: nat)
    requires from <= |rollbacks|
    ensures Restore(d, rollbacks, luck, from)
            == if from == |rollbacks| then d
               else Restore(RestoreOne(d, rollbacks[from], luck(from)), rollbacks, luck, from + 1)
  {
    hide RestoreOne;
  }

  lemma RestoreOneRevokes(d: Disk, r: Rollback, luck: Luck)
    ensures RestoreOne(d, r, luck).acls == if luck.revokes then WithoutOn(d.acls, r.path, r.sid) else d.acls
  {
    hide Without;
  }

  /** Only the journal files of what was rolled back go, whatever fails. */
  lemma {:induction false} RestoreRemovesOwn(d: Disk, rollbacks: seq<Rollback>, luck: nat -> Luck, from: nat,
                                             file: FileName)
    requires from <= |rollbacks| && file in d.files
    ensures var d' := Restore(d, rollbacks, luck, from);
            if file in d'.files then d'.files[file] == d.files[file]
            else exists k :: from <= k < |rollbacks| && rollbacks[k].journal == Some(file)
    decreases |rollbacks| - from
  {
    if from < |rollbacks| {
      var d1 := RestoreOne(d, rollbacks[from], luck(from));
      if file in d1.files {
        RestoreRemovesOwn(d1, rollbacks, luck, from + 1, file);
      } else {
        assert rollbacks[from].journal == Some(file);
        RestoreAddsNothing(d1, rollbacks, luck, from + 1, file);
      }
    }
  }

  lemma {:induction false} RestoreAddsNothing(d: Disk, rollbacks: seq<Rollback>, luck: nat -> Luck, from: nat,
                                              file: FileName)
    requires from <= |rollbacks| && file !in d.files
    ensures file !in Restore(d, rollbacks, luck, from).files
    decreases |rollbacks| - from
  {
    if from < |rollbacks| {
      RestoreAddsNothing(RestoreOne(d, rollbacks[from], luck(from)), rollbacks, luck, from + 1, file);
    }
  }
}
