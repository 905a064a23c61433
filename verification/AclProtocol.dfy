/**
 Sandboxes sharing paths, as a protocol: processes start and die at any moment, sandboxes are
 granted and cleaned up, outsiders edit the access lists, paths come and go, and any process may be
 in the middle of recovery, each step interleaved with all others.

 A process id may be reused after its process is gone, so processes are told apart by a number of
 their own. Journal file names are never reused: they carry the process id and the nanosecond.
 */
module AclProtocol {
  import opened Wrappers
  import opened Text
  import opened JournalMac
  import opened AclJournal

  /** One run of a process. */
  datatype Process = Process(pid: nat, run: nat)

  /** Grants are only made before cleanup begins; each is journaled first. */
  datatype Sandbox = Sandbox(owner: Process, granting: bool, journaled: set<FileName>)

  datatype World = World(
    disk: Disk,
    /** What the access lists would hold had no sandbox ever run. */
    original: map<Path, Acl>,
    started: set<Process>,
    alive: set<Process>,
    sandboxes: map<Sid, Sandbox>,
    usedNames: set<FileName>,
    /** Entries a recovery has read and found stale, and may now act on. */
    doomed: map<FileName, Entry>,
    /** Files whose grant was revoked, and which may now be removed. */
    cleared: set<FileName>)

  datatype Step =
    | Start(process: Process)
    | Die(process: Process)
    | NewSandbox(sid: Sid, process: Process)
    | Journal(sid: Sid, path: Path, profile: Bytes, file: FileName)
    | Tear(sid: Sid, file: FileName)
    | Grant(sid: Sid, file: FileName, acl: Acl)
    | BeginCleanup(sid: Sid)
    | RevokeOwn(sid: Sid, file: FileName)
    | RemoveOwn(sid: Sid, file: FileName)
    | RecoveryReads(file: FileName)
    | RecoveryRevokes(file: FileName)
    | RecoveryRemoves(file: FileName)
    | OutsideEdit(path: Path, acl: Acl)
    | PathGoes(path: Path)
    | PathComes(path: Path, acl: Acl)

  function LivePids(w: World): set<nat> {
    set p | p in w.alive :: p.pid
  }

  function SandboxAces(w: World, acl: Acl): set<Ace> {
    set ace | ace in acl && ace.sid in w.sandboxes
  }

  /** A sandbox that is being granted paths journals them under names of its process's own. */
  predicate MayJournal(w: World, sid: Sid, file: FileName) {
    && sid in w.sandboxes && w.sandboxes[sid].owner in w.alive && w.sandboxes[sid].granting
    && file.pid == w.sandboxes[sid].owner.pid && file !in w.usedNames
  }

  /** When a step can happen. A failed call is a step that does not happen. */
  ghost predicate Enabled(j: Journaling, w: World, step: Step) {
    match step
    case Start(p) => p !in w.started && p.pid !in LivePids(w)
    case Die(p) => p in w.alive
    case NewSandbox(sid, p) =>
      && p in w.alive && j.isSandbox(sid) && sid !in w.sandboxes
      && forall path :: path in w.original ==> forall ace :: ace in w.original[path] ==> ace.sid != sid
    case Journal(sid, path, profile, file) => MayJournal(w, sid, file)
    case Tear(sid, file) => MayJournal(w, sid, file)
    case Grant(sid, file, acl) =>
      // only the sandbox's own entries may differ afterwards
      && sid in w.sandboxes && w.sandboxes[sid].owner in w.alive && w.sandboxes[sid].granting
      && file in w.sandboxes[sid].journaled && file in w.disk.files
      && var path := w.disk.files[file].grant.path;
         path in w.disk.acls && Without(acl, {sid}) == Without(w.disk.acls[path], {sid})
    case BeginCleanup(sid) => sid in w.sandboxes && w.sandboxes[sid].owner in w.alive
    case RevokeOwn(sid, file) =>
      && sid in w.sandboxes && w.sandboxes[sid].owner in w.alive && !w.sandboxes[sid].granting
      && file in w.sandboxes[sid].journaled && file in w.disk.files
      && w.disk.files[file].grant.path in w.disk.acls
    case RemoveOwn(sid, file) =>
      sid in w.sandboxes && file in w.sandboxes[sid].journaled && file in w.cleared
    case RecoveryReads(file) =>
      file in w.disk.files && Stale(j, w.disk.files[file], LivePids(w))
    case RecoveryRevokes(file) => file in w.doomed && w.doomed[file].grant.path in w.disk.acls
    case RecoveryRemoves(file) => file in w.cleared
    case OutsideEdit(path, acl) =>
      path in w.disk.acls && SandboxAces(w, acl) <= SandboxAces(w, w.disk.acls[path])
    case PathGoes(path) => path in w.disk.acls
    case PathComes(path, acl) => path !in w.disk.acls && SandboxAces(w, acl) == {}
  }

  function Do(j: Journaling, w: World, step: Step): World {
    match step
    case Start(p) => w.(started := w.started + {p}, alive := w.alive + {p})
    case Die(p) => w.(alive := w.alive - {p})
    case NewSandbox(sid, p) => w.(sandboxes := w.sandboxes[sid := Sandbox(p, true, {})])
    case Tear(sid, file) =>
      w.(disk := w.disk.(files := w.disk.files - {file}, junk := w.disk.junk + {file}),
         usedNames := w.usedNames + {file})
    case Journal(sid, path, profile, file) =>
      if sid !in w.sandboxes then w else
      var grant := GrantEntry(path, sid, profile, w.sandboxes[sid].owner.pid);
      w.(disk := w.disk.(files := w.disk.files[file := j.write(grant)], junk := w.disk.junk - {file}),
         usedNames := w.usedNames + {file},
         sandboxes := w.sandboxes[sid := w.sandboxes[sid].(journaled := w.sandboxes[sid].journaled + {file})])
    case Grant(sid, file, acl) =>
      if file !in w.disk.files then w else
      w.(disk := w.disk.(acls := w.disk.acls[w.disk.files[file].grant.path := acl]))
    case BeginCleanup(sid) =>
      if sid !in w.sandboxes then w else
      w.(sandboxes := w.sandboxes[sid := w.sandboxes[sid].(granting := false)])
    case RevokeOwn(sid, file) =>
      if file !in w.disk.files then w else
      w.(disk := Revoke(w.disk, w.disk.files[file].grant.path, sid), cleared := w.cleared + {file})
    case RemoveOwn(_, file) => w.(disk := w.disk.(files := w.disk.files - {file}))
    case RecoveryReads(file) =>
      if file !in w.disk.files then w else w.(doomed := w.doomed[file := w.disk.files[file]])
    case RecoveryRevokes(file) =>
      if file !in w.doomed then w else
      var grant := w.doomed[file].grant;
      w.(disk := Revoke(w.disk, grant.path, grant.sid), cleared := w.cleared + {file})
    case RecoveryRemoves(file) => w.(disk := w.disk.(files := w.disk.files - {file}))
    case OutsideEdit(path, acl) =>
      w.(disk := w.disk.(acls := w.disk.acls[path := acl]),
         original := w.original[path := Without(acl, w.sandboxes.Keys)])
    case PathGoes(path) => w.(disk := w.disk.(acls := w.disk.acls - {path}), original := w.original - {path})
    case PathComes(path, acl) =>
      w.(disk := w.disk.(acls := w.disk.acls[path := acl]), original := w.original[path := acl])
  }

  ghost predicate Initial(w: World) {
    && w.disk.files == map[] && w.disk.acls == w.original && w.disk.junk <= w.usedNames
    && w.started == w.alive && w.sandboxes == map[] && w.doomed == map[] && w.cleared == {}
  }

  /** Every step of the run could happen when it did. */
  ghost predicate Runs(j: Journaling, w: World, steps: seq<Step>)
    decreases |steps|
  {
    steps == [] || (Enabled(j, w, steps[0]) && Runs(j, Do(j, w, steps[0]), steps[1..]))
  }

  function End(j: Journaling, w: World, steps: seq<Step>): World
    decreases |steps|
  {
    if steps == [] then w else End(j, Do(j, w, steps[0]), steps[1..])
  }

  // --- The invariant -------------------------------------------------------------------------

  /** The sandbox will make no more grants. */
  predicate Retired(w: World, sid: Sid)
    requires sid in w.sandboxes
  {
    !w.sandboxes[sid].granting || w.sandboxes[sid].owner !in w.alive
  }

  predicate NoAce(w: World, path: Path, sid: Sid) {
    path in w.disk.acls ==> forall ace :: ace in w.disk.acls[path] ==> ace.sid != sid
  }

  ghost predicate HasJournal(w: World, path: Path, sid: Sid) {
    exists file :: file in w.disk.files && w.disk.files[file].grant.path == path && w.disk.files[file].grant.sid == sid
  }

  /** Take the sandbox entries away and the original list is left, in order. */
  predicate OnlySandboxEntriesAdded(w: World) {
    && w.disk.acls.Keys == w.original.Keys
    && forall path :: path in w.original ==> w.original[path] == Without(w.disk.acls[path], w.sandboxes.Keys)
  }

  /** Every sandbox entry still has a journal file that will undo it. */
  ghost predicate EveryEntryJournaled(w: World) {
    forall path, ace :: path in w.disk.acls && ace in w.disk.acls[path] && ace.sid in w.sandboxes ==>
      HasJournal(w, path, ace.sid)
  }

  /** The journal files are what their sandboxes wrote. */
  predicate FilesGenuine(j: Journaling, w: World) {
    && (forall file :: file in w.disk.files ==>
          var e := w.disk.files[file];
          && e.grant.sid in w.sandboxes && file in w.sandboxes[e.grant.sid].journaled
          && e.grant.ownerPid == w.sandboxes[e.grant.sid].owner.pid
          && j.trusts(e))
    && (forall sid, file :: sid in w.sandboxes && file in w.sandboxes[sid].journaled && file in w.disk.files ==>
          w.disk.files[file].grant.sid == sid)
  }

  predicate NamesUsed(w: World) {
    && w.disk.files.Keys <= w.usedNames && w.doomed.Keys <= w.usedNames && w.cleared <= w.usedNames
    && forall sid :: sid in w.sandboxes ==> w.sandboxes[sid].journaled <= w.usedNames
  }

  /** What recovery acts on belongs to a process that is gone for good. */
  predicate DoomedAreDead(w: World) {
    forall file :: file in w.doomed ==>
      var e := w.doomed[file];
      && e.grant.sid in w.sandboxes && w.sandboxes[e.grant.sid].owner !in w.alive
      && (file in w.disk.files ==> w.disk.files[file] == e)
  }

  /** A file that may be removed has nothing left to undo, and never will. */
  predicate ClearedAreDone(w: World) {
    forall file :: file in w.cleared && file in w.disk.files ==>
      var grant := w.disk.files[file].grant;
      grant.sid in w.sandboxes && Retired(w, grant.sid) && NoAce(w, grant.path, grant.sid)
  }

  predicate ProcessesStarted(w: World) {
    w.alive <= w.started && forall sid :: sid in w.sandboxes ==> w.sandboxes[sid].owner in w.started
  }

  /** What the lists hold. */
  ghost predicate ListsInv(w: World) {
    OnlySandboxEntriesAdded(w) && EveryEntryJournaled(w) && ClearedAreDone(w)
  }

  /** What the journal and the processes are. */
  ghost predicate BooksInv(j: Journaling, w: World) {
    && FilesGenuine(j, w) && NamesUsed(w) && DoomedAreDead(w) && ProcessesStarted(w)
    && forall sid :: sid in w.sandboxes ==> j.isSandbox(sid)
  }

  ghost predicate Inv(j: Journaling, w: World) {
    ListsInv(w) && BooksInv(j, w)
  }

  // --- Each step keeps it --------------------------------------------------------------------

  lemma {:induction false} InitialInv(j: Journaling, w: World)
    requires Initial(w)
    ensures Inv(j, w)
  {
    forall path | path in w.original ensures w.original[path] == Without(w.disk.acls[path], w.sandboxes.Keys) {
      WithoutNone(w.disk.acls[path], w.sandboxes.Keys);
    }
  }

  /** No new sandbox entry, and no journal file lost: every entry stays journaled. */
  lemma {:induction false} JournaledStays(w: World, w': World)
    requires EveryEntryJournaled(w)
    requires forall path, ace :: path in w'.disk.acls && ace in w'.disk.acls[path] && ace.sid in w'.sandboxes ==>
               (path in w.disk.acls && ace in w.disk.acls[path] && ace.sid in w.sandboxes)
               || HasJournal(w', path, ace.sid)
    requires forall file :: file in w.disk.files ==>
               || (file in w'.disk.files && w'.disk.files[file] == w.disk.files[file])
               || NoAce(w', w.disk.files[file].grant.path, w.disk.files[file].grant.sid)
    ensures EveryEntryJournaled(w')
  {
    forall path, ace | path in w'.disk.acls && ace in w'.disk.acls[path] && ace.sid in w'.sandboxes
      ensures HasJournal(w', path, ace.sid)
    {
      if path in w.disk.acls && ace in w.disk.acls[path] && ace.sid in w.sandboxes {
        assert HasJournal(w, path, ace.sid);
        var f :| f in w.disk.files && w.disk.files[f].grant.path == path && w.disk.files[f].grant.sid == ace.sid;
        assert !NoAce(w', path, ace.sid);
        assert f in w'.disk.files;
      }
    }
  }

  lemma {:induction false} LifeKeeps(j: Journaling, w: World, step: Step)
    requires Inv(j, w) && Enabled(j, w, step) && (step.Start? || step.Die? || step.BeginCleanup?)
    ensures Inv(j, Do(j, w, step))
  {
    var w' := Do(j, w, step);
    assert w'.disk == w.disk && w'.original == w.original && w'.cleared == w.cleared;
    assert w'.sandboxes.Keys == w.sandboxes.Keys;
    assert forall sid :: sid in w.sandboxes && Retired(w, sid) ==> Retired(w', sid);
    LifeKeepsBooks(j, w, step);
    hide Do, Enabled, BooksInv;
    LifeKeepsLists(w, w');
  }

  lemma {:induction false} LifeKeepsLists(w: World, w': World)
    requires ListsInv(w) && w'.disk == w.disk && w'.original == w.original && w'.cleared == w.cleared
    requires w'.sandboxes.Keys == w.sandboxes.Keys
    requires forall sid :: sid in w.sandboxes && Retired(w, sid) ==> Retired(w', sid)
    ensures ListsInv(w')
  {
    hide Retired, Without;
    assert forall path, sid :: NoAce(w, path, sid) ==> NoAce(w', path, sid);
    JournaledStays(w, w');
  }

  lemma {:induction false} LifeKeepsBooks(j: Journaling, w: World, step: Step)
    requires BooksInv(j, w) && Enabled(j, w, step) && (step.Start? || step.Die? || step.BeginCleanup?)
    ensures BooksInv(j, Do(j, w, step))
  {
    var w' := Do(j, w, step);
    assert w'.disk == w.disk && w'.sandboxes.Keys == w.sandboxes.Keys;
    assert forall sid :: sid in w.sandboxes ==>
        w'.sandboxes[sid].owner == w.sandboxes[sid].owner && w'.sandboxes[sid].journaled == w.sandboxes[sid].journaled;
    assert forall sid :: sid in w.sandboxes && w.sandboxes[sid].owner !in w.alive ==>
        w.sandboxes[sid].owner !in w'.alive;
    assert FilesGenuine(j, w');
    assert NamesUsed(w');
    assert DoomedAreDead(w');
  }

  lemma {:induction false} NewSandboxKeeps(j: Journaling, w: World, sid: Sid, p: Process)
    requires Inv(j, w) && Enabled(j, w, NewSandbox(sid, p))
    ensures Inv(j, Do(j, w, NewSandbox(sid, p)))
  {
    var w' := Do(j, w, NewSandbox(sid, p));
    assert w'.sandboxes.Keys == w.sandboxes.Keys + {sid};
    forall path | path in w.original
      ensures w.original[path] == Without(w.disk.acls[path], w'.sandboxes.Keys) && NoAce(w, path, sid)
    {
      WithoutTwice(w.disk.acls[path], w.sandboxes.Keys, {sid});
      WithoutNone(w.original[path], {sid});
      assert forall ace :: ace in w.disk.acls[path] && ace.sid == sid ==> ace in w.original[path];
    }
    assert forall path, ace :: path in w'.disk.acls && ace in w'.disk.acls[path] && ace.sid in w'.sandboxes ==>
        NoAce(w, path, sid) && ace.sid in w.sandboxes;
    JournaledStays(w, w');
    assert forall s :: s in w.sandboxes ==> s in w'.sandboxes && w'.sandboxes[s] == w.sandboxes[s];
    NewSandboxKeepsCleared(j, w, sid, p);
    NewSandboxKeepsBooks(j, w, sid, p);
  }

  lemma {:induction false} NewSandboxKeepsCleared(j: Journaling, w: World, sid: Sid, p: Process)
    requires ClearedAreDone(w) && sid !in w.sandboxes
    ensures ClearedAreDone(Do(j, w, NewSandbox(sid, p)))
  {
  }

  lemma {:induction false} NewSandboxKeepsBooks(j: Journaling, w: World, sid: Sid, p: Process)
    requires BooksInv(j, w) && Enabled(j, w, NewSandbox(sid, p))
    ensures BooksInv(j, Do(j, w, NewSandbox(sid, p)))
  {
    var w' := Do(j, w, NewSandbox(sid, p));
    assert w'.sandboxes.Keys == w.sandboxes.Keys + {sid};
    assert forall s :: s in w.sandboxes ==> s in w'.sandboxes && w'.sandboxes[s] == w.sandboxes[s];
    assert FilesGenuine(j, w');
    assert NamesUsed(w');
    assert DoomedAreDead(w');
    assert ProcessesStarted(w');
  }

  lemma {:induction false} JournalKeeps(j: Journaling, w: World, step: Step)
    requires j.Sound() && Inv(j, w) && Enabled(j, w, step) && step.Journal?
    ensures Inv(j, Do(j, w, step))
  {
    var w' := Do(j, w, step);
    assert w'.sandboxes.Keys == w.sandboxes.Keys;
    assert forall file :: file in w.disk.files ==> file in w'.disk.files && w'.disk.files[file] == w.disk.files[file];
    JournaledStays(w, w');
    JournalKeepsCleared(j, w, step);
    JournalKeepsBooks(j, w, step);
  }

  /** A write torn half-way leaves a file that holds nothing, under a name nothing else has. */
  lemma {:induction false} TearKeeps(j: Journaling, w: World, step: Step)
    requires Inv(j, w) && Enabled(j, w, step) && step.Tear?
    ensures Inv(j, Do(j, w, step))
  {
    var w' := Do(j, w, step);
    assert w'.disk.files == w.disk.files && w'.sandboxes == w.sandboxes;
    NothingAddedKeeps(w.(usedNames := w'.usedNames), w');
    assert OnlySandboxEntriesAdded(w');
    assert NamesUsed(w');
  }

  lemma {:induction false} JournalKeepsCleared(j: Journaling, w: World, step: Step)
    requires ClearedAreDone(w) && NamesUsed(w) && Enabled(j, w, step) && step.Journal?
    ensures ClearedAreDone(Do(j, w, step))
  {
    var w' := Do(j, w, step);
    forall file | file in w'.cleared && file in w'.disk.files
      ensures var grant := w'.disk.files[file].grant;
              grant.sid in w'.sandboxes && Retired(w', grant.sid) && NoAce(w', grant.path, grant.sid)
    {
      assert file != step.file && w'.disk.files[file] == w.disk.files[file];
      assert w'.sandboxes[w.disk.files[file].grant.sid].granting == w.sandboxes[w.disk.files[file].grant.sid].granting;
    }
  }

  lemma {:induction false} JournalKeepsBooks(j: Journaling, w: World, step: Step)
    requires j.Sound() && BooksInv(j, w) && Enabled(j, w, step) && step.Journal?
    ensures BooksInv(j, Do(j, w, step))
  {
    var w' := Do(j, w, step);
    var grant := GrantEntry(step.path, step.sid, step.profile, w.sandboxes[step.sid].owner.pid);
    assert j.write(grant).grant == grant && j.trusts(j.write(grant));
    assert forall sid :: sid in w.sandboxes ==> w'.sandboxes[sid].owner == w.sandboxes[sid].owner;
    assert forall sid :: sid in w.sandboxes ==> w.sandboxes[sid].journaled <= w'.sandboxes[sid].journaled;
    assert forall sid, f :: sid in w.sandboxes && f in w'.sandboxes[sid].journaled && f != step.file ==>
        f in w.sandboxes[sid].journaled;
    assert forall sid :: sid in w.sandboxes && step.file in w'.sandboxes[sid].journaled ==> sid == step.sid;
    assert FilesGenuine(j, w');
    assert NamesUsed(w');
    assert DoomedAreDead(w');
  }

  /** Changing one sandbox's entries on one path changes nothing below them. */
  lemma {:induction false} OwnEntriesOnly(w: World, path: Path, sid: Sid, acl: Acl)
    requires OnlySandboxEntriesAdded(w) && path in w.disk.acls && sid in w.sandboxes
    requires Without(acl, {sid}) == Without(w.disk.acls[path], {sid})
    ensures Without(acl, w.sandboxes.Keys) == w.original[path]
    ensures forall ace :: ace in acl && ace.sid != sid ==> ace in w.disk.acls[path]
  {
    var all := w.sandboxes.Keys;
    assert {sid} + all == all;
    WithoutTwice(acl, {sid}, all);
    WithoutTwice(w.disk.acls[path], {sid}, all);
    forall ace | ace in acl && ace.sid != sid ensures ace in w.disk.acls[path] {
      assert ace in Without(acl, {sid});
    }
  }

  /** Steps that only edit the lists leave the books as they are. */
  lemma {:induction false} BooksStay(j: Journaling, w: World, w': World)
    requires BooksInv(j, w)
    requires w'.disk.files == w.disk.files && w'.started == w.started && w'.alive == w.alive
    requires w'.sandboxes == w.sandboxes && w'.usedNames == w.usedNames && w'.doomed == w.doomed
    requires w'.cleared <= w.usedNames
    ensures BooksInv(j, w')
  {
  }

  lemma {:induction false} GrantKeeps(j: Journaling, w: World, step: Step)
    requires Inv(j, w) && Enabled(j, w, step) && step.Grant?
    ensures Inv(j, Do(j, w, step))
  {
    var w' := Do(j, w, step);
    var path := w.disk.files[step.file].grant.path;
    OwnEntriesOnly(w, path, step.sid, step.acl);
    GrantKeepsJournaled(j, w, step);
    assert !Retired(w, step.sid);
    GrantKeepsCleared(w, w', path, step.sid);
    hide ClearedAreDone, EveryEntryJournaled, FilesGenuine, NamesUsed, DoomedAreDead, Without, Enabled;
    BooksStay(j, w, w');
  }

  lemma {:induction false} GrantKeepsJournaled(j: Journaling, w: World, step: Step)
    requires Inv(j, w) && Enabled(j, w, step) && step.Grant?
    ensures EveryEntryJournaled(Do(j, w, step))
  {
    var w' := Do(j, w, step);
    var path := w.disk.files[step.file].grant.path;
    OwnEntriesOnly(w, path, step.sid, step.acl);
    assert HasJournal(w', path, step.sid);
    hide ClearedAreDone, NamesUsed, DoomedAreDead, Without, OnlySandboxEntriesAdded;
    JournaledStays(w, w');
  }

  lemma {:induction false} GrantKeepsCleared(w: World, w': World, path: Path, sid: Sid)
    requires ClearedAreDone(w) && sid in w.sandboxes && !Retired(w, sid) && path in w.disk.acls
    requires w' == w.(disk := w'.disk) && w'.disk.files == w.disk.files
    requires w'.disk.acls.Keys == w.disk.acls.Keys
    requires forall q :: q in w.disk.acls && q != path ==> w'.disk.acls[q] == w.disk.acls[q]
    requires forall ace :: ace in w'.disk.acls[path] && ace.sid != sid ==> ace in w.disk.acls[path]
    ensures ClearedAreDone(w')
  {
  }

  lemma {:induction false} RevokeKeeps(j: Journaling, w: World, path: Path, sid: Sid, file: FileName)
    requires Inv(j, w) && sid in w.sandboxes && Retired(w, sid) && file in w.usedNames
    requires file in w.disk.files ==> w.disk.files[file].grant.path == path && w.disk.files[file].grant.sid == sid
    ensures Inv(j, w.(disk := Revoke(w.disk, path, sid), cleared := w.cleared + {file}))
  {
    var w' := w.(disk := Revoke(w.disk, path, sid), cleared := w.cleared + {file});
    if path in w.disk.acls {
      var acl := Without(w.disk.acls[path], {sid});
      WithoutTwice(w.disk.acls[path], {sid}, {sid});
      assert {sid} + {sid} == {sid};
      OwnEntriesOnly(w, path, sid, acl);
    }
    assert OnlySandboxEntriesAdded(w');
    assert forall q, ace :: q in w'.disk.acls && ace in w'.disk.acls[q] ==> ace in w.disk.acls[q];
    JournaledStays(w, w');
    RevokeKeepsCleared(w, w', path, sid, file);
    BooksStay(j, w, w');
  }

  lemma {:induction false} RevokeKeepsCleared(w: World, w': World, path: Path, sid: Sid, file: FileName)
    requires ClearedAreDone(w) && sid in w.sandboxes && Retired(w, sid)
    requires w' == w.(disk := Revoke(w.disk, path, sid), cleared := w.cleared + {file})
    requires file in w.disk.files ==> w.disk.files[file].grant.path == path && w.disk.files[file].grant.sid == sid
    ensures ClearedAreDone(w')
  {
    assert NoAce(w', path, sid);
    assert forall q, s :: NoAce(w, q, s) ==> NoAce(w', q, s);
  }

  lemma {:induction false} RemoveKeeps(j: Journaling, w: World, file: FileName)
    requires Inv(j, w) && file in w.cleared
    ensures Inv(j, w.(disk := w.disk.(files := w.disk.files - {file})))
  {
    var w' := w.(disk := w.disk.(files := w.disk.files - {file}));
    assert forall f :: f in w'.disk.files ==> f in w.disk.files && w'.disk.files[f] == w.disk.files[f];
    assert forall q, s :: NoAce(w, q, s) ==> NoAce(w', q, s);
    JournaledStays(w, w');
    RemoveKeepsBooks(j, w, file);
  }

  lemma {:induction false} RemoveKeepsBooks(j: Journaling, w: World, file: FileName)
    requires BooksInv(j, w)
    ensures BooksInv(j, w.(disk := w.disk.(files := w.disk.files - {file})))
  {
    var w' := w.(disk := w.disk.(files := w.disk.files - {file}));
    assert forall f :: f in w'.disk.files ==> f in w.disk.files && w'.disk.files[f] == w.disk.files[f];
    assert FilesGenuine(j, w');
    assert NamesUsed(w');
    assert DoomedAreDead(w');
  }

  lemma {:induction false} RecoveryReadsKeeps(j: Journaling, w: World, file: FileName)
    requires Inv(j, w) && Enabled(j, w, RecoveryReads(file))
    ensures Inv(j, Do(j, w, RecoveryReads(file)))
  {
    var w' := Do(j, w, RecoveryReads(file));
    JournaledStays(w, w');
    var owner := w.sandboxes[w.disk.files[file].grant.sid].owner;
    assert owner.pid !in LivePids(w);
    assert owner !in w.alive;
    assert ListsInv(w');
    RecoveryReadsKeepsBooks(j, w, file);
  }

  lemma {:induction false} RecoveryReadsKeepsBooks(j: Journaling, w: World, file: FileName)
    requires BooksInv(j, w) && file in w.disk.files
    requires w.sandboxes[w.disk.files[file].grant.sid].owner !in w.alive
    ensures BooksInv(j, Do(j, w, RecoveryReads(file)))
  {
    var w' := Do(j, w, RecoveryReads(file));
    assert FilesGenuine(j, w');
    assert NamesUsed(w');
    assert DoomedAreDead(w');
  }

  lemma {:induction false} OutsideEditKeeps(j: Journaling, w: World, path: Path, acl: Acl)
    requires Inv(j, w) && Enabled(j, w, OutsideEdit(path, acl))
    ensures Inv(j, Do(j, w, OutsideEdit(path, acl)))
  {
    var w' := w.(disk := w.disk.(acls := w.disk.acls[path := acl]),
                 original := w.original[path := Without(acl, w.sandboxes.Keys)]);
    assert w' == Do(j, w, OutsideEdit(path, acl));
    OutsideEditAdds(w, path, acl);
    OutsideEditKeepsOriginal(w, w', path, acl);
    hide Do, Enabled, OnlySandboxEntriesAdded, ClearedAreDone, EveryEntryJournaled, FilesGenuine, NamesUsed;
    hide DoomedAreDead, Without;
    NothingAddedKeeps(w, w');
    BooksStay(j, w, w');
  }

  lemma OutsideEditKeepsOriginal(w: World, w': World, path: Path, acl: Acl)
    requires OnlySandboxEntriesAdded(w) && path in w.disk.acls
    requires w' == w.(disk := w.disk.(acls := w.disk.acls[path := acl]),
                      original := w.original[path := Without(acl, w.sandboxes.Keys)])
    ensures OnlySandboxEntriesAdded(w')
  {
    hide Without;
  }

  lemma OutsideEditAdds(w: World, path: Path, acl: Acl)
    requires path in w.disk.acls && SandboxAces(w, acl) <= SandboxAces(w, w.disk.acls[path])
    ensures forall ace :: ace in acl && ace.sid in w.sandboxes ==> ace in w.disk.acls[path]
  {
    forall ace | ace in acl && ace.sid in w.sandboxes ensures ace in w.disk.acls[path] {
      assert ace in SandboxAces(w, acl);
    }
  }

  /** No list gained a sandbox entry: what was done stays done, and what was journaled stays so. */
  lemma {:induction false} NothingAddedKeeps(w: World, w': World)
    requires EveryEntryJournaled(w) && ClearedAreDone(w)
    requires w' == w.(disk := w'.disk, original := w'.original) && w'.disk.files == w.disk.files
    requires forall path, ace :: path in w'.disk.acls && ace in w'.disk.acls[path] && ace.sid in w.sandboxes ==>
               path in w.disk.acls && ace in w.disk.acls[path]
    ensures EveryEntryJournaled(w') && ClearedAreDone(w')
  {
    assert forall path, sid :: sid in w.sandboxes && NoAce(w, path, sid) ==> NoAce(w', path, sid);
    JournaledStays(w, w');
  }

  lemma {:induction false} PathGoesKeepsOriginal(w: World, w': World, path: Path)
    requires OnlySandboxEntriesAdded(w)
    requires w' == w.(disk := w.disk.(acls := w.disk.acls - {path}), original := w.original - {path})
    ensures OnlySandboxEntriesAdded(w')
  {
    hide Without;
  }

  lemma {:induction false} PathGoesKeeps(j: Journaling, w: World, path: Path)
    requires Inv(j, w) && Enabled(j, w, PathGoes(path))
    ensures Inv(j, Do(j, w, PathGoes(path)))
  {
    hide OnlySandboxEntriesAdded, ClearedAreDone, EveryEntryJournaled, FilesGenuine, DoomedAreDead;
    hide Without;
    var w' := w.(disk := w.disk.(acls := w.disk.acls - {path}), original := w.original - {path});
    assert w' == Do(j, w, PathGoes(path));
    hide Do, Enabled;
    PathGoesKeepsOriginal(w, w', path);
    NothingAddedKeeps(w, w');
    BooksStay(j, w, w');
  }

  lemma {:induction false} PathComesKeepsOriginal(w: World, w': World, path: Path, acl: Acl)
    requires OnlySandboxEntriesAdded(w) && forall ace :: ace in acl ==> ace.sid !in w.sandboxes
    requires w' == w.(disk := w.disk.(acls := w.disk.acls[path := acl]), original := w.original[path := acl])
    ensures OnlySandboxEntriesAdded(w')
  {
    WithoutNone(acl, w.sandboxes.Keys);
    hide Without;
  }

  lemma NoneIsASandboxs(w: World, acl: Acl)
    requires SandboxAces(w, acl) == {}
    ensures forall ace :: ace in acl ==> ace.sid !in w.sandboxes
  {
    forall ace | ace in acl ensures ace.sid !in w.sandboxes {
      assert ace !in SandboxAces(w, acl);
    }
  }

  lemma {:induction false} PathComesKeeps(j: Journaling, w: World, path: Path, acl: Acl)
    requires Inv(j, w) && Enabled(j, w, PathComes(path, acl))
    ensures Inv(j, Do(j, w, PathComes(path, acl)))
  {
    hide OnlySandboxEntriesAdded, ClearedAreDone, EveryEntryJournaled, FilesGenuine, DoomedAreDead;
    hide Without, SandboxAces;
    var w' := w.(disk := w.disk.(acls := w.disk.acls[path := acl]), original := w.original[path := acl]);
    assert w' == Do(j, w, PathComes(path, acl));
    NoneIsASandboxs(w, acl);
    hide Do, Enabled;
    PathComesKeepsOriginal(w, w', path, acl);
    NothingAddedKeeps(w, w');
    BooksStay(j, w, w');
  }

  lemma {:induction false} StepKeeps(j: Journaling, w: World, step: Step)
    requires j.Sound() && Inv(j, w) && Enabled(j, w, step)
    ensures Inv(j, Do(j, w, step))
  {
    match step
    case Start(_) => LifeKeeps(j, w, step);
    case Die(_) => LifeKeeps(j, w, step);
    case BeginCleanup(_) => LifeKeeps(j, w, step);
    case NewSandbox(sid, p) => NewSandboxKeeps(j, w, sid, p);
    case Journal(_, _, _, _) => JournalKeeps(j, w, step);
    case Tear(_, file) => TearKeeps(j, w, step);
    case Grant(_, _, _) => GrantKeeps(j, w, step);
    case RevokeOwn(sid, file) => RevokeKeeps(j, w, w.disk.files[file].grant.path, sid, file);
    case RemoveOwn(_, file) => RemoveKeeps(j, w, file);
    case RecoveryReads(file) => RecoveryReadsKeeps(j, w, file);
    case RecoveryRevokes(file) => RevokeKeeps(j, w, w.doomed[file].grant.path, w.doomed[file].grant.sid, file);
    case RecoveryRemoves(file) => RemoveKeeps(j, w, file);
    case OutsideEdit(path, acl) => OutsideEditKeeps(j, w, path, acl);
    case PathGoes(path) => PathGoesKeeps(j, w, path);
    case PathComes(path, acl) => PathComesKeeps(j, w, path, acl);
  }

  // --- The results ---------------------------------------------------------------------------

  lemma {:induction false} RunKeeps(j: Journaling, w: World, steps: seq<Step>)
    requires j.Sound() && Inv(j, w) && Runs(j, w, steps)
    ensures Inv(j, End(j, w, steps))
    decreases |steps|
  {
    if steps != [] {
      StepKeeps(j, w, steps[0]);
      RunKeeps(j, Do(j, w, steps[0]), steps[1..]);
    }
  }

  /** In every reachable world each path's list is its original entries, in order, plus only sandbox
      entries that still have a journal file naming that path and sandbox. */
  lemma {:induction false} EveryReachableListIsUndoable(j: Journaling, w: World, steps: seq<Step>, path: Path)
    requires j.Sound() && Initial(w) && Runs(j, w, steps)
    ensures var w' := End(j, w, steps);
            path in w'.original ==>
              && path in w'.disk.acls && Without(w'.disk.acls[path], w'.sandboxes.Keys) == w'.original[path]
              && forall ace :: ace in w'.disk.acls[path] ==>
                   ace in w'.original[path] || (ace.sid in w'.sandboxes && HasJournal(w', path, ace.sid))
  {
    InitialInv(j, w);
    RunKeeps(j, w, steps);
    var w' := End(j, w, steps);
    if path in w'.original {
      assert forall ace :: ace in w'.disk.acls[path] && ace.sid !in w'.sandboxes ==>
               ace in Without(w'.disk.acls[path], w'.sandboxes.Keys);
    }
  }

  /** Recovery never revokes for a sandbox whose process is alive, even when the process id was
      reused between reading the entry and acting on it. */
  lemma {:induction false} RecoverySparesTheLiving(j: Journaling, w: World, steps: seq<Step>, file: FileName)
    requires j.Sound() && Initial(w) && Runs(j, w, steps) && Enabled(j, End(j, w, steps), RecoveryRevokes(file))
    ensures var w' := End(j, w, steps);
            var sid := w'.doomed[file].grant.sid;
            sid in w'.sandboxes && w'.sandboxes[sid].owner !in w'.alive
  {
    InitialInv(j, w);
    RunKeeps(j, w, steps);
  }

  lemma {:induction false} LiveJournalIsNotCleared(j: Journaling, w: World, sid: Sid, file: FileName)
    requires Inv(j, w) && sid in w.sandboxes && !Retired(w, sid)
    requires file in w.sandboxes[sid].journaled && file in w.disk.files
    ensures file !in w.cleared && file in w.usedNames
  {
    hide OnlySandboxEntriesAdded, EveryEntryJournaled, DoomedAreDead, ProcessesStarted, NoAce;
    assert w.disk.files[file].grant.sid == sid;
  }

  /** The journal file of a waiting grant is always still there: no recovery removes it. */
  lemma {:induction false} LiveJournalIsKept(j: Journaling, w: World, step: Step, sid: Sid, file: FileName)
    requires Inv(j, w) && Enabled(j, w, step)
    requires sid in w.sandboxes && !Retired(w, sid) && file in w.sandboxes[sid].journaled && file in w.disk.files
    ensures file in Do(j, w, step).disk.files
  {
    LiveJournalIsNotCleared(j, w, sid, file);
    hide Inv, Retired, Without;
  }

  /** No living process holds the id of the process behind any sandbox entry still on a list. */
  ghost predicate OwnerIdsFree(w: World) {
    forall path, ace :: path in w.disk.acls && ace in w.disk.acls[path] && ace.sid in w.sandboxes ==>
      w.sandboxes[ace.sid].owner.pid !in LivePids(w)
  }

  ghost predicate Lists(listing: seq<FileName>, d: Disk) {
    Distinct(listing) && forall file :: file in listing <==> file in d.files
  }

  /** Every sandbox entry still on a list is of an entry of these files that recovery revokes. */
  ghost predicate AllRevoked(j: Journaling, w: World, files: seq<FileName>, chance: FileName -> Chance) {
    forall path, ace :: path in w.disk.acls && ace in w.disk.acls[path] && ace.sid in w.sandboxes ==>
      ace.sid in RevokedSids(j, w.disk, files, LivePids(w), chance, path)
  }

  /** A pass of recovery, whatever fails in it, gives every path back its original list if and only if
      every sandbox entry still there is named by an entry the pass comes to, finds stale and can revoke. */
  lemma {:induction false} RecoveryRestoresExactly(j: Journaling, w: World, steps: seq<Step>, listing: seq<FileName>,
                                                   chance: FileName -> Chance)
    requires j.Sound() && Initial(w) && Runs(j, w, steps) && Distinct(listing)
    ensures var w' := End(j, w, steps);
            Recover(j, w'.disk, listing, LivePids(w'), chance).0.acls == w'.original
            <==> AllRevoked(j, w', listing[..Reach(w'.disk, listing, chance)], chance)
  {
    InitialInv(j, w);
    RunKeeps(j, w, steps);
    var w' := End(j, w, steps);
    PassRestores(j, w', listing, chance);
  }

  lemma {:induction false} PassRestores(j: Journaling, w: World, listing: seq<FileName>, chance: FileName -> Chance)
    requires Inv(j, w) && Distinct(listing)
    ensures Recover(j, w.disk, listing, LivePids(w), chance).0.acls == w.original
            <==> AllRevoked(j, w, listing[..Reach(w.disk, listing, chance)], chance)
  {
    var files := listing[..Reach(w.disk, listing, chance)];
    var after := Recover(j, w.disk, listing, LivePids(w), chance).0.acls;
    RecoverIs(j, w.disk, listing, LivePids(w), chance);
    hide Recover, Reach;
    if AllRevoked(j, w, files, chance) {
      forall path | path in w.original ensures after[path] == w.original[path] {
        AllRevokedStrips(j, w, files, chance, path);
      }
    } else {
      var path, ace :| path in w.disk.acls && ace in w.disk.acls[path] && ace.sid in w.sandboxes
                       && ace.sid !in RevokedSids(j, w.disk, files, LivePids(w), chance, path);
      assert ace in after[path] && ace !in Without(w.disk.acls[path], w.sandboxes.Keys);
    }
  }

  lemma {:induction false} AllRevokedStrips(j: Journaling, w: World, files: seq<FileName>, chance: FileName -> Chance,
                                            path: Path)
    requires Inv(j, w) && path in w.original && AllRevoked(j, w, files, chance)
    ensures Without(w.disk.acls[path], RevokedSids(j, w.disk, files, LivePids(w), chance, path)) == w.original[path]
  {
    var acl, gone := w.disk.acls[path], RevokedSids(j, w.disk, files, LivePids(w), chance, path);
    var all := w.sandboxes.Keys;
    assert gone <= all;
    WithoutTwice(acl, gone, all);
    assert gone + all == all;
    WithoutNone(Without(acl, gone), all);
  }

  /** When everything can be read and revoked, that is: if and only if the ids of the processes behind
      the entries still there are free. Gone for good is not enough. */
  lemma {:induction false} FullPassRestoresExactly(j: Journaling, w: World, steps: seq<Step>, listing: seq<FileName>,
                                                   chance: FileName -> Chance)
    requires j.Sound() && Initial(w) && Runs(j, w, steps) && Lists(listing, End(j, w, steps).disk)
    requires forall file :: chance(file).opens && chance(file).revokes
    ensures var w' := End(j, w, steps);
            Recover(j, w'.disk, listing, LivePids(w'), chance).0.acls == w'.original <==> OwnerIdsFree(w')
  {
    InitialInv(j, w);
    RunKeeps(j, w, steps);
    var w' := End(j, w, steps);
    RecoveryRestoresExactly(j, w, steps, listing, chance);
    assert listing[..Reach(w'.disk, listing, chance)] == listing;
    FullPassRevokes(j, w', listing, chance);
  }

  /** In a full pass an entry's sandbox is named by what is revoked exactly when its owner's id is free. */
  lemma {:induction false} RevokedIffFree(j: Journaling, w: World, listing: seq<FileName>, chance: FileName -> Chance,
                                          path: Path, sid: Sid)
    requires FilesGenuine(j, w) && Lists(listing, w.disk) && forall file :: chance(file).revokes
    requires sid in w.sandboxes && HasJournal(w, path, sid)
    ensures sid in RevokedSids(j, w.disk, listing, LivePids(w), chance, path)
            <==> w.sandboxes[sid].owner.pid !in LivePids(w)
  {
    hide LivePids;
    var file :| file in w.disk.files && w.disk.files[file].grant.path == path && w.disk.files[file].grant.sid == sid;
    assert Revoked(j, w.disk, file, LivePids(w), chance) <==> w.sandboxes[sid].owner.pid !in LivePids(w);
  }

  lemma {:induction false} FullPassRevokes(j: Journaling, w: World, listing: seq<FileName>, chance: FileName -> Chance)
    requires Inv(j, w) && Lists(listing, w.disk) && forall file :: chance(file).revokes
    ensures AllRevoked(j, w, listing, chance) <==> OwnerIdsFree(w)
  {
    hide FilesGenuine, RevokedSids, LivePids, Lists;
    forall path, ace | path in w.disk.acls && ace in w.disk.acls[path] && ace.sid in w.sandboxes
      ensures ace.sid in RevokedSids(j, w.disk, listing, LivePids(w), chance, path)
              <==> w.sandboxes[ace.sid].owner.pid !in LivePids(w)
    {
      assert HasJournal(w, path, ace.sid);
      RevokedIffFree(j, w, listing, chance, path, ace.sid);
    }
  }

  lemma {:induction false} Extend(j: Journaling, w: World, steps: seq<Step>, step: Step)
    requires Runs(j, w, steps) && Enabled(j, End(j, w, steps), step)
    ensures Runs(j, w, steps + [step]) && End(j, w, steps + [step]) == Do(j, End(j, w, steps), step)
  {
    OneStep(j, End(j, w, steps), step);
    RunsAppend(j, w, steps, [step]);
  }

  /** A machine with one path, whose list is empty, and no processes. */
  function Fresh(path: Path): World {
    World(Disk(map[path := []], map[], {}), map[path := []], {}, {}, map[], {}, map[], {})
  }

  /** One process grants one sandbox one path. */
  function OneGrant(sid: Sid, path: Path, profile: Bytes, mask: nat): seq<Step> {
    var p := Process(7, 0);
    [Start(p), NewSandbox(sid, p), Journal(sid, path, profile, FileName(7, 1)),
     Grant(sid, FileName(7, 1), [Ace(sid, mask)])]
  }

  function Granted(j: Journaling, sid: Sid, path: Path, profile: Bytes, mask: nat): World {
    var p := Process(7, 0);
    World(Disk(map[path := [Ace(sid, mask)]], map[FileName(7, 1) := j.write(GrantEntry(path, sid, profile, 7))], {}),
          map[path := []], {p}, {p}, map[sid := Sandbox(p, true, {FileName(7, 1)})], {FileName(7, 1)}, map[], {})
  }

  lemma {:induction false} OneGrantIsARun(j: Journaling, sid: Sid, path: Path, profile: Bytes, mask: nat)
    requires j.Sound() && j.isSandbox(sid)
    ensures var steps := OneGrant(sid, path, profile, mask);
            Runs(j, Fresh(path), steps) && End(j, Fresh(path), steps) == Granted(j, sid, path, profile, mask)
  {
    var p, file, w := Process(7, 0), FileName(7, 1), Fresh(path);
    var grant := GrantEntry(path, sid, profile, 7);
    var a, b, c := Start(p), NewSandbox(sid, p), Journal(sid, path, profile, file);
    var d := Grant(sid, file, [Ace(sid, mask)]);
    assert j.write(grant).grant == grant;
    assert LivePids(w) == {};
    TwoSteps(j, w, a, b);
    var w2 := End(j, w, [a, b]);
    assert w2 == w.(started := {p}, alive := {p}, sandboxes := map[sid := Sandbox(p, true, {})]);
    Extend(j, w, [a, b], c);
    assert [a, b] + [c] == [a, b, c];
    var w3 := End(j, w, [a, b, c]);
    assert w3.disk == Disk(map[path := []], map[file := j.write(grant)], {});
    assert w2.sandboxes[sid].journaled + {file} == {file};
    assert w3.sandboxes == map[sid := Sandbox(p, true, {file})];
    assert Without([Ace(sid, mask)], {sid}) == Without([], {sid});
    Extend(j, w, [a, b, c], d);
    assert [a, b, c] + [d] == OneGrant(sid, path, profile, mask);
    hide End, Runs, Enabled, Without;
    assert End(j, w, OneGrant(sid, path, profile, mask)) == Granted(j, sid, path, profile, mask);
  }

  /** The sandbox's process dies and another starts under its id: no pass takes the entry away. */
  lemma {:induction false} ReusedIdKeepsEntry(j: Journaling, sid: Sid, path: Path, profile: Bytes, mask: nat,
                                              chance: FileName -> Chance)
    requires j.Sound() && j.isSandbox(sid)
    ensures var steps := OneGrant(sid, path, profile, mask) + [Die(Process(7, 0))] + [Start(Process(7, 1))];
            var w' := End(j, Fresh(path), steps);
            && Runs(j, Fresh(path), steps) && Lists([FileName(7, 1)], w'.disk)
            && sid in w'.sandboxes && w'.sandboxes[sid].owner !in w'.alive
            && Recover(j, w'.disk, [FileName(7, 1)], LivePids(w'), chance).0.acls != w'.original
  {
    var w, steps := Fresh(path), OneGrant(sid, path, profile, mask);
    OneGrantIsARun(j, sid, path, profile, mask);
    Extend(j, w, steps, Die(Process(7, 0)));
    var w5 := End(j, w, steps + [Die(Process(7, 0))]);
    assert LivePids(w5) == {};
    Extend(j, w, steps + [Die(Process(7, 0))], Start(Process(7, 1)));
    var all := steps + [Die(Process(7, 0))] + [Start(Process(7, 1))];
    var w' := End(j, w, all);
    assert w'.alive == {Process(7, 1)} && Process(7, 1) in w'.alive;
    assert 7 in LivePids(w');
    assert w'.disk.acls[path] == [Ace(sid, mask)] && Ace(sid, mask) in w'.disk.acls[path];
    var files := [FileName(7, 1)][..Reach(w'.disk, [FileName(7, 1)], chance)];
    assert RevokedSids(j, w'.disk, files, LivePids(w'), chance, path) == {};
    RecoveryRestoresExactly(j, w, all, [FileName(7, 1)], chance);
  }

  /** The sandbox's process dies and its id stays free, but the directory was listed while another
      process was about to remove a file: a pass that comes to that one first restores nothing. */
  lemma {:induction false} GoneFileHidesTheRest(j: Journaling, sid: Sid, path: Path, profile: Bytes, mask: nat,
                                                gone: FileName, chance: FileName -> Chance)
    requires j.Sound() && j.isSandbox(sid) && gone != FileName(7, 1)
    ensures var steps := OneGrant(sid, path, profile, mask) + [Die(Process(7, 0))];
            var w' := End(j, Fresh(path), steps);
            && Runs(j, Fresh(path), steps) && OwnerIdsFree(w')
            && Recover(j, w'.disk, [gone, FileName(7, 1)], LivePids(w'), chance) == (w'.disk, Err(Unreadable(gone)))
            && w'.disk.acls != w'.original
  {
    var w, steps := Fresh(path), OneGrant(sid, path, profile, mask);
    OneGrantIsARun(j, sid, path, profile, mask);
    Extend(j, w, steps, Die(Process(7, 0)));
    var w' := End(j, w, steps + [Die(Process(7, 0))]);
    assert w'.alive == {};
    assert w'.disk.files.Keys == {FileName(7, 1)} && w'.disk.junk == {};
    FirstFileGone(j, w'.disk, gone, FileName(7, 1), LivePids(w'), chance);
    assert w'.disk.acls[path] == [Ace(sid, mask)] && w'.original[path] == [];
  }

  lemma {:induction false} FirstFileGone(j: Journaling, d: Disk, gone: FileName, file: FileName, livePids: set<nat>,
                                         chance: FileName -> Chance)
    requires gone !in d.files && gone !in d.junk
    ensures Recover(j, d, [gone, file], livePids, chance) == (d, Err(Unreadable(gone)))
  {
    var listing := [gone, file];
    assert listing[..1] == [gone] && [gone][..0] == [];
    assert Recover(j, d, [gone], livePids, chance) == (d, Err(Unreadable(gone)));
  }

  // --- The loops are runs --------------------------------------------------------------------

  lemma {:induction false} RunsAppend(j: Journaling, w: World, a: seq<Step>, b: seq<Step>)
    requires Runs(j, w, a) && Runs(j, End(j, w, a), b)
    ensures Runs(j, w, a + b) && End(j, w, a + b) == End(j, End(j, w, a), b)
    decreases |a|
  {
    if a == [] {
      assert a + b == b;
    } else {
      assert (a + b)[1..] == a[1..] + b;
      RunsAppend(j, Do(j, w, a[0]), a[1..], b);
    }
  }

  lemma {:induction false} TwoSteps(j: Journaling, w: World, a: Step, b: Step)
    requires Enabled(j, w, a) && Enabled(j, Do(j, w, a), b)
    ensures Runs(j, w, [a, b]) && End(j, w, [a, b]) == Do(j, Do(j, w, a), b)
  {
    assert [a, b][1..] == [b] && [b][1..] == [];
    assert Runs(j, Do(j, w, a), [b]);
    assert End(j, Do(j, w, a), [b]) == Do(j, Do(j, w, a), b);
  }

  lemma {:induction false} OneStep(j: Journaling, w: World, a: Step)
    requires Enabled(j, w, a)
    ensures Runs(j, w, [a]) && End(j, w, [a]) == Do(j, w, a)
  {
    assert [a][1..] == [];
  }

  /** Dealing with one journal file in recovery is a run: read, revoke, and perhaps remove. */
  lemma {:induction false} RecoverOneIsARun(j: Journaling, w: World, file: FileName, chance: Chance)
    returns (steps: seq<Step>)
    requires file in w.disk.files
    ensures Runs(j, w, steps)
    ensures End(j, w, steps).disk == RecoverOne(j, w.disk, file, LivePids(w), chance).0
    ensures End(j, w, steps).alive == w.alive
  {
    steps := [];
    var e := w.disk.files[file];
    if Stale(j, e, LivePids(w)) && !RevokeFails(w.disk, e.grant.path, chance.revokes) {
      steps := [RecoveryReads(file), RecoveryRevokes(file)];
      TwoSteps(j, w, RecoveryReads(file), RecoveryRevokes(file));
      if chance.removes {
        Extend(j, w, steps, RecoveryRemoves(file));
        steps := steps + [RecoveryRemoves(file)];
      }
    }
  }

  /** So is a whole pass over the journal, whatever fails in it and wherever it ends. */
  lemma {:induction false} RecoverIsARun(j: Journaling, w: World, listing: seq<FileName>, chance: FileName -> Chance)
    returns (steps: seq<Step>)
    ensures Runs(j, w, steps)
    ensures End(j, w, steps).disk == Recover(j, w.disk, listing, LivePids(w), chance).0
    ensures End(j, w, steps).alive == w.alive
    decreases |listing|
  {
    if listing == [] {
      steps := [];
    } else {
      var file := listing[|listing| - 1];
      steps := RecoverIsARun(j, w, listing[..|listing| - 1], chance);
      var before := Recover(j, w.disk, listing[..|listing| - 1], LivePids(w), chance);
      if before.1.Ok? && file in before.0.files && chance(file).opens {
        var more := RecoverOneIsARun(j, End(j, w, steps), file, chance(file));
        RunsAppend(j, w, steps, more);
        steps := steps + more;
      }
    }
  }

  /** The sandbox is cleaning up and can undo these grants, each journaled under a name of its own. */
  ghost predicate CanUndo(w: World, sid: Sid, rollbacks: seq<Rollback>, from: nat) {
    && from <= |rollbacks|
    && sid in w.sandboxes && w.sandboxes[sid].owner in w.alive && !w.sandboxes[sid].granting
    && (forall k :: from <= k < |rollbacks| ==>
          var r := rollbacks[k];
          && r.sid == sid && r.journal.Some? && r.journal.value in w.sandboxes[sid].journaled
          && r.journal.value in w.disk.files && w.disk.files[r.journal.value].grant.path == r.path)
    && forall k, l :: from <= k < l < |rollbacks| ==> rollbacks[k].journal != rollbacks[l].journal
  }

  /** Undoing one rollback of a sandbox that is cleaning up is a run: revoke, and perhaps remove. */
  lemma {:induction false} RestoreOneIsARun(j: Journaling, w: World, sid: Sid, rollbacks: seq<Rollback>, from: nat,
                                            luck: Luck)
    returns (steps: seq<Step>)
    requires CanUndo(w, sid, rollbacks, from) && from < |rollbacks|
    ensures Runs(j, w, steps)
    ensures End(j, w, steps).disk == RestoreOne(w.disk, rollbacks[from], luck)
    ensures CanUndo(End(j, w, steps), sid, rollbacks, from + 1)
  {
    var file := rollbacks[from].journal.value;
    steps := [];
    if !RevokeFails(w.disk, w.disk.files[file].grant.path, luck.revokes) {
      OneStep(j, w, RevokeOwn(sid, file));
      steps := [RevokeOwn(sid, file)];
      if luck.removes {
        TwoSteps(j, w, RevokeOwn(sid, file), RemoveOwn(sid, file));
        steps := [RevokeOwn(sid, file), RemoveOwn(sid, file)];
        assert forall k :: from < k < |rollbacks| ==> rollbacks[k].journal != rollbacks[from].journal;
      }
    }
  }

  /** So is draining all of them at a clean exit, whatever fails. */
  lemma {:induction false} RestoreIsARun(j: Journaling, w: World, sid: Sid, rollbacks: seq<Rollback>, luck: nat -> Luck,
                                         from: nat) returns (steps: seq<Step>)
    requires CanUndo(w, sid, rollbacks, from)
    ensures Runs(j, w, steps)
    ensures End(j, w, steps).disk == Restore(w.disk, rollbacks, luck, from)
    decreases |rollbacks| - from
  {
    steps := [];
    if from < |rollbacks| {
      steps := RestoreOneIsARun(j, w, sid, rollbacks, from, luck(from));
      var more := RestoreIsARun(j, End(j, w, steps), sid, rollbacks, luck, from + 1);
      RunsAppend(j, w, steps, more);
      steps := steps + more;
    }
  }

  /** Granting a path, in that order and whatever fails, is a run too: journal, and perhaps edit. */
  lemma {:induction false} GrantIsARun(j: Journaling, w: World, sid: Sid, path: Path, profile: Bytes, file: FileName,
                                       luck: GrantLuck) returns (steps: seq<Step>)
    requires j.Sound() && j.isSandbox(sid) && Enabled(j, w, Journal(sid, path, profile, file))
    requires path in w.disk.acls ==> Without(luck.acl, {sid}) == Without(w.disk.acls[path], {sid})
    ensures Runs(j, w, steps)
    ensures End(j, w, steps).disk == GrantAccess(j, w.disk, path, sid, profile, file, luck).0
  {
    steps := [];
    if luck.journals.Torn? {
      OneStep(j, w, Tear(sid, file));
      steps := [Tear(sid, file)];
    } else if luck.journals.Written? {
      var journal := Journal(sid, path, profile, file);
      OneStep(j, w, journal);
      steps := [journal];
      if luck.edits && path in w.disk.acls {
        TwoSteps(j, w, journal, Grant(sid, file, luck.acl));
        steps := [journal, Grant(sid, file, luck.acl)];
      }
    }
  }

  /** All of this holds of the journal as it is, whose entries carry a tag under the machine's key. */
  lemma {:induction false} TaggedRecoveryRestoresExactly(mac: (Bytes, Bytes) -> Bytes, key: Bytes, w: World,
                                                         steps: seq<Step>, listing: seq<FileName>,
                                                         chance: FileName -> Chance)
    requires Initial(w) && Runs(TaggedJournal(mac, key), w, steps) && Distinct(listing)
    ensures var j := TaggedJournal(mac, key);
            var w' := End(j, w, steps);
            && Inv(j, w')
            && (Recover(j, w'.disk, listing, LivePids(w'), chance).0.acls == w'.original
                <==> AllRevoked(j, w', listing[..Reach(w'.disk, listing, chance)], chance))
  {
    var j := TaggedJournal(mac, key);
    TaggedJournalIsSound(mac, key);
    InitialInv(j, w);
    RunKeeps(j, w, steps);
    RecoveryRestoresExactly(j, w, steps, listing, chance);
  }

  // --- Journal names -------------------------------------------------------------------------

  /** Some other file names the same path and sandbox, or the new entry does, or nothing is left to
      undo: what is overwritten is not missed. */
  ghost predicate NotMissed(w: World, file: FileName, entry: Entry)
    requires file in w.disk.files
  {
    var gone := w.disk.files[file].grant;
    || NoAce(w, gone.path, gone.sid)
    || (entry.grant.path == gone.path && entry.grant.sid == gone.sid)
    || exists other :: other != file && other in w.disk.files
         && w.disk.files[other].grant.path == gone.path && w.disk.files[other].grant.sid == gone.sid
  }

  lemma {:induction false} OverwritingKeeps(w: World, w': World, file: FileName, entry: Entry)
    requires EveryEntryJournaled(w) && w' == w.(disk := w.disk.(files := w.disk.files[file := entry]))
    requires file in w.disk.files ==> NotMissed(w, file, entry)
    ensures EveryEntryJournaled(w')
  {
    assert file in w'.disk.files && w'.disk.files[file] == entry;
    assert forall f :: f in w.disk.files && f != file ==> f in w'.disk.files && w'.disk.files[f] == w.disk.files[f];
    forall path, ace | path in w'.disk.acls && ace in w'.disk.acls[path] && ace.sid in w'.sandboxes
      ensures HasJournal(w', path, ace.sid)
    {
      assert HasJournal(w, path, ace.sid);
      var f :| f in w.disk.files && w.disk.files[f].grant.path == path && w.disk.files[f].grant.sid == ace.sid;
      if f != file {
        assert f in w'.disk.files;
      } else {
        assert !NoAce(w, path, ace.sid);
      }
    }
  }

  /** Two grants of one process in the same nanosecond share a journal name. Writing under a name in
      use keeps every entry journaled exactly when what it overwrites is not missed. */
  lemma {:induction false} OverwritingIff(j: Journaling, w: World, file: FileName, entry: Entry)
    requires Inv(j, w)
    ensures EveryEntryJournaled(w.(disk := w.disk.(files := w.disk.files[file := entry])))
            <==> (file in w.disk.files ==> NotMissed(w, file, entry))
  {
    var w' := w.(disk := w.disk.(files := w.disk.files[file := entry]));
    if file in w.disk.files ==> NotMissed(w, file, entry) {
      OverwritingKeeps(w, w', file, entry);
    } else {
      var gone := w.disk.files[file].grant;
      assert gone.sid in w'.sandboxes;
      assert !HasJournal(w', gone.path, gone.sid);
    }
  }

  /** Two grants in one nanosecond: after the second has taken the first one's journal name nothing
      undoes the first, and a full pass of recovery, all processes gone, leaves its entry. */
  lemma {:induction false} SameNanosecondLosesAnEntry(j: Journaling, sid: Sid, path: Path, other: Path, profile: Bytes,
                                                      mask: nat, chance: FileName -> Chance)
    requires j.Sound() && j.isSandbox(sid) && path != other
    ensures var w := Granted(j, sid, path, profile, mask);
            var overwritten := PersistEntry(j, w.disk, Rollback(other, sid, None), profile, FileName(7, 1), Written).0;
            && Inv(j, w) && !EveryEntryJournaled(w.(disk := overwritten))
            && Recover(j, overwritten, [FileName(7, 1)], {}, chance).0.acls[path] == [Ace(sid, mask)]
  {
    var w, file := Granted(j, sid, path, profile, mask), FileName(7, 1);
    OneGrantIsARun(j, sid, path, profile, mask);
    InitialInv(j, Fresh(path));
    RunKeeps(j, Fresh(path), OneGrant(sid, path, profile, mask));
    var entry := j.write(GrantEntry(other, sid, profile, 7));
    assert entry.grant.path == other;
    var d := w.disk.(files := w.disk.files[file := entry]);
    hide Inv, Runs, End;
    NothingLeftToUndo(w.(disk := d), file, path, sid, mask);
    OverwrittenIsNotRecovered(j, d, file, path, chance);
  }

  lemma NothingLeftToUndo(w: World, file: FileName, path: Path, sid: Sid, mask: nat)
    requires sid in w.sandboxes && w.disk.files.Keys == {file} && w.disk.files[file].grant.path != path
    requires path in w.disk.acls && w.disk.acls[path] == [Ace(sid, mask)]
    ensures !EveryEntryJournaled(w)
  {
    assert Ace(sid, mask) in w.disk.acls[path];
    assert !HasJournal(w, path, sid);
  }

  lemma {:induction false} OverwrittenIsNotRecovered(j: Journaling, d: Disk, file: FileName, path: Path,
                                                     chance: FileName -> Chance)
    requires d.files.Keys == {file} && d.files[file].grant.path != path && path in d.acls
    ensures path in Recover(j, d, [file], {}, chance).0.acls
            && Recover(j, d, [file], {}, chance).0.acls[path] == d.acls[path]
  {
    RecoverIs(j, d, [file], {}, chance);
    var n := Reach(d, [file], chance);
    assert RevokedSids(j, d, [file][..n], {}, chance, path) == {};
    WithoutNone(d.acls[path], {});
  }
}
