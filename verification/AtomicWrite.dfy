/**
 The write protocol as file-system effects, with crashes.

 The model is one directory. A file's bytes survive a crash only once they were
 synced; until then a crash may leave anything. A directory entry that changed
 since the directory was last synced may come back with any of the values it had
 since. The file system records every state it passes through, so a property of
 all recorded states is a property of a crash after any prefix of the effects.
 */
module AtomicWrite {
  import opened Prelude
  import opened Random

  type Name = string
  type Ino = nat

  datatype Inode = Inode(bytes: Bytes, synced: bool) {
    /** What the file may hold after a crash. */
    predicate MayHold(b: Bytes) {
      synced ==> bytes == b
    }
  }

  datatype Disk = Disk(inodes: map<Ino, Inode>, entries: map<Name, Ino>, pending: map<Name, set<Option<Ino>>>) {

    function Entry(n: Name): Option<Ino> {
      if n in entries then Some(entries[n]) else None
    }

    /** The values the entry may have after a crash. */
    function Possible(n: Name): set<Option<Ino>> {
      {Entry(n)} + if n in pending then pending[n] else {}
    }

    ghost predicate Valid() {
      && (forall n :: n in entries ==> entries[n] in inodes)
      && (forall n, i :: n in pending && Some(i) in pending[n] ==> i in inodes)
    }

    /** What a reader sees now. */
    function Content(n: Name): Option<Bytes> {
      if n in entries && entries[n] in inodes then Some(inodes[entries[n]].bytes) else None
    }

    /** What a reader may see after a crash. */
    ghost predicate CrashReads(n: Name, x: Option<Bytes>) {
      || (x.None? && None in Possible(n))
      || (x.Some? && exists i: Ino :: Some(i) in Possible(n) && i in inodes && inodes[i].MayHold(x.value))
    }

    function SetEntry(n: Name, v: Option<Ino>): Disk {
      Disk(inodes, if v.Some? then entries[n := v.value] else entries - {n}, pending[n := Possible(n) + {v}])
    }

    function SetInode(i: Ino, node: Inode): Disk {
      Disk(inodes[i := node], entries, pending)
    }

    function SyncDir(): Disk {
      Disk(inodes, entries, map[])
    }
  }

  datatype Opened = Created(ino: Ino) | AlreadyExists | Failed

  /**
   The file system. An operation may fail for reasons of its own, at any point it likes,
   unless the file system `works`: then it fails only for the reasons spelled out.
   */
  class FileSystem {
    const works: bool
    var disk: Disk
    var locks: set<Name>
    ghost var trace: seq<Disk>

    constructor (works: bool, disk: Disk)
      requires disk.Valid()
      ensures Valid() && this.works == works && this.disk == disk && locks == {}
    {
      this.works, this.disk, locks, trace := works, disk, {}, [disk];
    }

    ghost predicate Valid()
      reads this
    {
      disk.Valid() && |trace| > 0 && trace[|trace| - 1] == disk
    }

    method CreateNew(n: Name) returns (r: Opened)
      requires Valid()
      modifies this`disk, this`trace
      ensures Valid() && old(trace) <= trace
      ensures r.AlreadyExists? ==> n in old(disk).entries
      ensures r.Created? ==> n !in old(disk).entries
      ensures works ==> !r.Failed?
      ensures r.Created? ==> r.ino !in old(disk).inodes
      ensures r.Created? ==> disk == old(disk).SetInode(r.ino, Inode([], false)).SetEntry(n, Some(r.ino))
      ensures r.Created? ==> trace == old(trace) + [disk]
      ensures !r.Created? ==> disk == old(disk) && trace == old(trace)
    {
      var done: bool :| works ==> done;
      if !done {
        return Failed;
      }
      if n in disk.entries {
        return AlreadyExists;
      }
      FreshExists(disk.inodes.Keys);
      var ino: Ino :| ino !in disk.inodes.Keys;
      disk := disk.SetInode(ino, Inode([], false)).SetEntry(n, Some(ino));
      trace := trace + [disk];
      return Created(ino);
    }

    method WriteAll(ino: Ino, data: Bytes) returns (ok: bool)
      requires Valid() && ino in disk.inodes
      modifies this`disk, this`trace
      ensures Valid()
      ensures exists b :: disk == old(disk).SetInode(ino, Inode(b, false)) && (ok ==> b == data)
      ensures trace == old(trace) + [disk] && (works ==> ok)
    {
      ok :| works ==> ok;
      var written := |data|;
      if !ok {
        written :| 0 <= written <= |data|;
      }
      ghost var b := data[..written];
      disk := disk.SetInode(ino, Inode(data[..written], false));
      trace := trace + [disk];
      assert disk == old(disk).SetInode(ino, Inode(b, false)) && (ok ==> b == data);
    }

    method SyncAll(ino: Ino) returns (ok: bool)
      requires Valid() && ino in disk.inodes
      modifies this`disk, this`trace
      ensures Valid()
      ensures disk == if ok then old(disk).SetInode(ino, Inode(old(disk).inodes[ino].bytes, true)) else old(disk)
      ensures trace == old(trace) + [disk] && (works ==> ok)
    {
      ok :| works ==> ok;
      if ok {
        disk := disk.SetInode(ino, Inode(disk.inodes[ino].bytes, true));
      }
      trace := trace + [disk];
    }

    method FsyncDir() returns (ok: bool)
      requires Valid()
      modifies this`disk, this`trace
      ensures Valid()
      ensures disk == if ok then old(disk).SyncDir() else old(disk)
      ensures trace == old(trace) + [disk] && (works ==> ok)
    {
      ok :| works ==> ok;
      if ok {
        disk := disk.SyncDir();
      }
      trace := trace + [disk];
    }

    method Rename(from: Name, to: Name) returns (ok: bool)
      requires Valid() && from in disk.entries && from != to
      modifies this`disk, this`trace
      ensures Valid()
      ensures disk == if ok then old(disk).SetEntry(to, Some(old(disk).entries[from])).SetEntry(from, None)
              else old(disk)
      ensures trace == old(trace) + [disk] && (works ==> ok)
    {
      ok :| works ==> ok;
      if ok {
        disk := disk.SetEntry(to, Some(disk.entries[from])).SetEntry(from, None);
      }
      trace := trace + [disk];
    }

    /** `hard_link`: fails when the name is taken. */
    method HardLink(from: Name, to: Name) returns (ok: bool)
      requires Valid() && from in disk.entries
      modifies this`disk, this`trace
      ensures Valid()
      ensures if to in old(disk).entries then !ok else works ==> ok
      ensures disk == if ok then old(disk).SetEntry(to, Some(old(disk).entries[from])) else old(disk)
      ensures trace == old(trace) + [disk]
    {
      ok :| works ==> ok;
      if to in disk.entries {
        ok := false;
      }
      if ok {
        disk := disk.SetEntry(to, Some(disk.entries[from]));
      }
      trace := trace + [disk];
    }

    method RemoveFile(n: Name) returns (ok: bool)
      requires Valid()
      modifies this`disk, this`trace
      ensures Valid()
      ensures if n !in old(disk).entries then !ok else works ==> ok
      ensures disk == if ok then old(disk).SetEntry(n, None) else old(disk)
      ensures trace == old(trace) + [disk]
    {
      ok :| works ==> ok;
      if n !in disk.entries {
        ok := false;
      }
      if ok {
        disk := disk.SetEntry(n, None);
      }
      trace := trace + [disk];
    }
  }

  lemma FreshExists(used: set<Ino>)
    ensures exists i: Ino :: i !in used
  {
    if forall i: Ino :: i in used {
      SubsetCount(Range(|used| + 1), used);
    }
  }

  // --------------------------------------------------------------------- names

  const HEX: string := "0123456789abcdef"

  function Hex(b: Bytes): (r: string)
    ensures |r| == 2 * |b|
  {
    if b == [] then "" else [HEX[b[0] / 16], HEX[b[0] % 16]] + Hex(b[1..])
  }

  function TempName(target: Name, nonce: Bytes): (r: Name)
    ensures r != target
  {
    target + "." + Hex(nonce) + ".latchkey-tmp"
  }

  function NewName(target: Name, nonce: Bytes): (r: Name)
    ensures r != target
  {
    target + "." + Hex(nonce) + ".latchkey-new"
  }

  function LockName(target: Name): (r: Name)
    ensures r != target
  {
    target + ".lock"
  }

  /** No earlier writer left a temporary file of this target behind. */
  ghost predicate NamesFree(d: Disk, target: Name) {
    forall nonce :: TempName(target, nonce) !in d.entries && NewName(target, nonce) !in d.entries
  }

  // -------------------------------------------------------------------- safety

  /** A name reads now as it did, can come back after a crash as nothing new, and so can its file. */
  ghost predicate Undisturbed(d0: Disk, d: Disk, n: Name) {
    && d.Content(n) == d0.Content(n)
    && forall x :: d.CrashReads(n, x) ==> d0.CrashReads(n, x)
  }

  /**
   The target is the old or the complete new file, now and after a crash, after a crash
   the new one only if it is the new one now; every other name that existed is undisturbed.
   */
  ghost predicate Safe(d0: Disk, d: Disk, target: Name, data: Bytes) {
    && (d.Content(target) == d0.Content(target) || d.Content(target) == Some(data))
    && (forall x :: d.CrashReads(target, x) ==>
          d0.CrashReads(target, x) || (x == Some(data) && d.Content(target) == Some(data)))
    && forall n :: n in d0.entries && n != target ==> Undisturbed(d0, d, n)
  }

  ghost predicate AllSafe(d0: Disk, trace: seq<Disk>, from: nat, target: Name, data: Bytes) {
    1 <= from <= |trace| && forall k :: from - 1 <= k < |trace| ==> Safe(d0, trace[k], target, data)
  }

  /** Nothing that existed changed, except possibly what the names in `changed` refer to. */
  ghost predicate QuietBut(d0: Disk, d: Disk, changed: set<Name>) {
    && (forall i :: i in d0.inodes ==> i in d.inodes && d.inodes[i] == d0.inodes[i])
    && forall n :: n !in changed ==> d.Entry(n) == d0.Entry(n) && d.Possible(n) <= d0.Possible(n)
  }

  lemma QuietName(d0: Disk, d: Disk, changed: set<Name>, n: Name)
    requires d0.Valid() && QuietBut(d0, d, changed) && n !in changed
    ensures Undisturbed(d0, d, n)
  {
    assert d.Entry(n) == d0.Entry(n);
    forall x | d.CrashReads(n, x)
      ensures d0.CrashReads(n, x)
    {
      if x.Some? {
        var i: Ino :| Some(i) in d.Possible(n) && i in d.inodes && d.inodes[i].MayHold(x.value);
        assert Some(i) in d0.Possible(n);
        assert i in d0.inodes && d0.inodes[i].MayHold(x.value);
      }
    }
  }

  lemma QuietIsSafe(d0: Disk, d: Disk, changed: set<Name>, target: Name, data: Bytes)
    requires d0.Valid() && QuietBut(d0, d, changed) && target !in changed
    requires forall n :: n in changed ==> n !in d0.entries
    ensures Safe(d0, d, target, data)
  {
    forall n | n !in changed
      ensures Undisturbed(d0, d, n)
    {
      QuietName(d0, d, changed, n);
    }
  }

  /** The new file is complete, synced, and is what the target's entry names. */
  ghost predicate Published(d0: Disk, d: Disk, target: Name, ino: Ino, data: Bytes) {
    && d.Entry(target) == Some(ino)
    && ino in d.inodes && d.inodes[ino] == Inode(data, true)
    && d.Possible(target) <= d0.Possible(target) + {Some(ino)}
  }

  lemma PublishedIsSafe(d0: Disk, d: Disk, tmp: Name, target: Name, ino: Ino, data: Bytes)
    requires d0.Valid() && QuietBut(d0, d, {tmp, target}) && tmp !in d0.entries
    requires Published(d0, d, target, ino, data)
    ensures Safe(d0, d, target, data)
  {
    forall x | d.CrashReads(target, x)
      ensures d0.CrashReads(target, x) || x == Some(data)
    {
      if x.Some? && x != Some(data) {
        var i: Ino :| Some(i) in d.Possible(target) && i in d.inodes && d.inodes[i].MayHold(x.value);
        assert i != ino;
        assert Some(i) in d0.Possible(target);
        assert i in d0.inodes && d0.inodes[i].MayHold(x.value);
      }
    }
    forall n | n in d0.entries && n != target
      ensures Undisturbed(d0, d, n)
    {
      QuietName(d0, d, {tmp, target}, n);
    }
  }

  /** Once the directory is synced too, a crash can only bring the new file. */
  ghost predicate Durable(d: Disk, target: Name, data: Bytes) {
    forall x :: d.CrashReads(target, x) <==> x == Some(data)
  }

  lemma SyncedIsDurable(d: Disk, target: Name, ino: Ino, data: Bytes)
    requires d.Possible(target) == {Some(ino)} && ino in d.inodes && d.inodes[ino] == Inode(data, true)
    ensures Durable(d, target, data)
  {
    assert d.inodes[ino].MayHold(data);
  }

  lemma SafeExtends(d0: Disk, trace: seq<Disk>, from: nat, target: Name, data: Bytes, d: Disk)
    requires AllSafe(d0, trace, from, target, data) && Safe(d0, d, target, data)
    ensures AllSafe(d0, trace + [d], from, target, data)
  {
    hide Safe;
  }

  // ---------------------------------------------------------------- the protocol

  /**
   A crash may still bring exactly what it could bring before, or the new file: where a
   write ends when the path names no directory to sync.
   */
  ghost predicate Undecided(d0: Disk, d: Disk, target: Name, data: Bytes) {
    forall x :: d.CrashReads(target, x) <==> d0.CrashReads(target, x) || x == Some(data)
  }

  /** A synced temporary file with the data in it, under a fresh name. */
  ghost predicate Staged(d0: Disk, d: Disk, tmp: Name, ino: Ino, data: Bytes) {
    && QuietBut(d0, d, {tmp})
    && tmp !in d0.entries && d.Entry(tmp) == Some(ino)
    && ino in d.inodes && d.inodes[ino] == Inode(data, true) && ino !in d0.inodes
  }

  lemma StagedSyncDir(d0: Disk, d: Disk, tmp: Name, ino: Ino, data: Bytes)
    requires Staged(d0, d, tmp, ino, data)
    ensures Staged(d0, d.SyncDir(), tmp, ino, data) && Durable(d.SyncDir(), tmp, data)
  {
    SyncedIsDurable(d.SyncDir(), tmp, ino, data);
  }

  /** At some recorded moment the new file was durable under another name, and the target as it had been. */
  ghost predicate DurableFirst(d0: Disk, trace: seq<Disk>, from: nat, target: Name, data: Bytes) {
    exists k: nat, n: Name :: from <= k < |trace| && n != target && Durable(trace[k], n, data)
                              && trace[k].Entry(target) == d0.Entry(target)
  }

  /** Naming a synced file `target` decides nothing until the directory is synced. */
  lemma EntryAloneIsNotDurable(d0: Disk, d: Disk, tmp: Name, ino: Ino, target: Name, data: Bytes)
    requires d0.Valid() && Staged(d0, d, tmp, ino, data) && tmp != target
    requires d.Possible(target) == d0.Possible(target)
    ensures Undecided(d0, d.SetEntry(target, Some(ino)), target, data)
    ensures Undecided(d0, d.SetEntry(target, Some(ino)).SetEntry(tmp, None), target, data)
  {
    var d1 := d.SetEntry(target, Some(ino));
    var d2 := d1.SetEntry(tmp, None);
    assert d1.Possible(target) == d0.Possible(target) + {Some(ino)} == d2.Possible(target);
    forall x
      ensures d1.CrashReads(target, x) <==> d0.CrashReads(target, x) || x == Some(data)
      ensures d2.CrashReads(target, x) <==> d1.CrashReads(target, x)
    {
      assert d1.inodes[ino].MayHold(data);
    }
  }

  lemma StagedRename(d0: Disk, d: Disk, tmp: Name, ino: Ino, target: Name, data: Bytes)
    requires Staged(d0, d, tmp, ino, data) && tmp != target
    ensures var d' := d.SetEntry(target, Some(ino)).SetEntry(tmp, None);
            QuietBut(d0, d', {tmp, target}) && Published(d0, d', target, ino, data)
  {
  }

  lemma PublishedSyncDir(d0: Disk, d: Disk, changed: set<Name>, target: Name, ino: Ino, data: Bytes)
    requires QuietBut(d0, d, changed) && Published(d0, d, target, ino, data)
    ensures QuietBut(d0, d.SyncDir(), changed) && Published(d0, d.SyncDir(), target, ino, data)
    ensures Durable(d.SyncDir(), target, data)
  {
    SyncedIsDurable(d.SyncDir(), target, ino, data);
  }

  lemma PublishedReads(d0: Disk, d: Disk, target: Name, ino: Ino, data: Bytes)
    requires Published(d0, d, target, ino, data)
    ensures d.Content(target) == Some(data)
  {
  }

  lemma StagedIsSafe(d0: Disk, d: Disk, tmp: Name, ino: Ino, target: Name, data: Bytes)
    requires d0.Valid() && Staged(d0, d, tmp, ino, data) && tmp != target
    ensures tmp in d.entries && d.entries[tmp] == ino && tmp !in d0.entries
    ensures Safe(d0, d, target, data)
  {
    QuietIsSafe(d0, d, {tmp}, target, data);
  }

  ghost predicate AllQuiet(d0: Disk, trace: seq<Disk>, from: nat, tmp: Name) {
    1 <= from <= |trace| && forall k :: from - 1 <= k < |trace| ==> QuietBut(d0, trace[k], {tmp})
  }

  lemma QuietTraceIsSafe(d0: Disk, trace: seq<Disk>, from: nat, tmp: Name, target: Name, data: Bytes)
    requires d0.Valid() && AllQuiet(d0, trace, from, tmp) && tmp !in d0.entries && tmp != target
    ensures AllSafe(d0, trace, from, target, data)
  {
    forall k | from - 1 <= k < |trace|
      ensures Safe(d0, trace[k], target, data)
    {
      QuietIsSafe(d0, trace[k], {tmp}, target, data);
    }
  }

  /** Create, fill and sync a file under `tmp`; until then nothing that existed is touched. */
  method Stage(fs: FileSystem, tmp: Name, data: Bytes) returns (made: Opened, ok: bool)
    requires fs.Valid()
    modifies fs`disk, fs`trace
    ensures fs.Valid() && old(fs.trace) <= fs.trace
    ensures AllQuiet(old(fs.disk), fs.trace, |old(fs.trace)|, tmp)
    ensures !made.Created? ==> fs.disk == old(fs.disk) && fs.trace == old(fs.trace) && !ok
    ensures made.AlreadyExists? ==> tmp in old(fs.disk).entries
    ensures made.Created? ==> tmp !in old(fs.disk).entries
    ensures fs.works && tmp !in old(fs.disk).entries ==> ok
    ensures forall n :: n != tmp ==> fs.disk.Possible(n) == old(fs.disk).Possible(n)
    ensures forall n :: n != tmp ==> fs.disk.Entry(n) == old(fs.disk).Entry(n)
    ensures ok ==> made.Created? && Staged(old(fs.disk), fs.disk, tmp, made.ino, data)
  {
    hide QuietBut;
    ghost var d0, from := fs.disk, |fs.trace|;
    NothingChanged(d0, tmp);
    made := fs.CreateNew(tmp);
    if !made.Created? {
      return made, false;
    }
    QuietFresh(d0, d0, tmp, made.ino, Inode([], false));
    QuietEntry(d0, d0.SetInode(made.ino, Inode([], false)), tmp, made.ino);
    ghost var d1 := fs.disk;
    ok := fs.WriteAll(made.ino, data);
    QuietFresh(d0, d1, tmp, made.ino, fs.disk.inodes[made.ino]);
    if ok {
      QuietFresh(d0, fs.disk, tmp, made.ino, Inode(data, true));
      ok := fs.SyncAll(made.ino);
    }
  }

  lemma NothingChanged(d: Disk, tmp: Name)
    ensures QuietBut(d, d, {tmp})
  {
  }

  lemma QuietFresh(d0: Disk, d: Disk, tmp: Name, ino: Ino, node: Inode)
    requires QuietBut(d0, d, {tmp}) && ino !in d0.inodes
    ensures QuietBut(d0, d.SetInode(ino, node), {tmp})
  {
  }

  lemma QuietEntry(d0: Disk, d: Disk, tmp: Name, ino: Ino)
    requires QuietBut(d0, d, {tmp})
    ensures QuietBut(d0, d.SetEntry(tmp, Some(ino)), {tmp})
  {
  }

  /**
   `atomic_write_locked`. Whatever fails and wherever a crash strikes, the target is
   the complete old or the complete new file. Success means the new file is there,
   and that it will still be there after a crash if the path names its directory;
   a bare file name leaves the directory unsynced.
   */
  method AtomicWriteLocked(fs: FileSystem, rng: Entropy, target: Name, hasParent: bool, data: Bytes)
    returns (r: Result<()>)
    requires fs.Valid()
    modifies fs`disk, fs`trace, rng
    ensures fs.Valid() && old(fs.trace) <= fs.trace
    ensures AllSafe(old(fs.disk), fs.trace, |old(fs.trace)|, target, data)
    ensures r.Ok? ==> fs.disk.Content(target) == Some(data)
    ensures r.Ok? && hasParent ==> Durable(fs.disk, target, data)
    ensures r.Ok? && !hasParent ==> Undecided(old(fs.disk), fs.disk, target, data)
    ensures r.Err? ==> r.error == Encrypt || r.error == Rng
    ensures fs.works && NamesFree(old(fs.disk), target) && |old(rng.pool)| >= 16 ==> r.Ok?
    ensures r.Ok? ==> forall n :: n != target ==> fs.disk.Entry(n) == old(fs.disk).Entry(n)
    ensures r.Ok? && hasParent ==> DurableFirst(old(fs.disk), fs.trace, |old(fs.trace)|, target, data)
  {
    hide Safe, Undecided, Staged, QuietBut, DurableFirst;
    ghost var d0, from := fs.disk, |fs.trace|;
    Untouched(d0, target, data);
    var nonce :- rng.Draw(16);
    var tmp := TempName(target, nonce);
    ghost var used := nonce;
    var made: Opened, ok: bool;
    while true
      invariant fs.Valid() && fs.disk == d0 && fs.trace == old(fs.trace) && tmp == TempName(target, used)
      decreases |rng.pool|
    {
      made, ok := Stage(fs, tmp, data);
      if made.AlreadyExists? {
        var again :- rng.Draw(16);
        tmp, used := TempName(target, again), again;
      } else {
        break;
      }
    }
    if made.Created? {
      QuietTraceIsSafe(d0, fs.trace, from, tmp, target, data);
    }
    if !ok {
      return Err(Encrypt);
    }
    r := Publish(fs, tmp, made.ino, target, hasParent, data, d0, from);
  }

  lemma Untouched(d: Disk, target: Name, data: Bytes)
    requires d.Valid()
    ensures Safe(d, d, target, data)
  {
  }

  lemma QuietWider(d0: Disk, d: Disk, tmp: Name, target: Name)
    requires QuietBut(d0, d, {tmp})
    ensures QuietBut(d0, d, {tmp, target})
  {
  }

  lemma QuietEntries(d0: Disk, d: Disk, tmp: Name, target: Name)
    requires QuietBut(d0, d, {tmp, target}) && tmp !in d.entries && tmp !in d0.entries
    ensures forall n :: n != target ==> d.Entry(n) == d0.Entry(n)
  {
  }

  /** The second half of the protocol: sync the directory, rename, sync it again. */
  method Publish(fs: FileSystem, tmp: Name, ino: Ino, target: Name, hasParent: bool, data: Bytes, ghost d0: Disk,
                 ghost from: nat)
    returns (r: Result<()>)
    requires fs.Valid() && d0.Valid() && tmp != target
    requires Staged(d0, fs.disk, tmp, ino, data)
    requires AllSafe(d0, fs.trace, from, target, data) && fs.disk.Possible(target) == d0.Possible(target)
    requires from <= |fs.trace| && fs.disk.Entry(target) == d0.Entry(target)
    modifies fs`disk, fs`trace
    ensures fs.Valid() && old(fs.trace) <= fs.trace
    ensures AllSafe(d0, fs.trace, from, target, data)
    ensures r.Ok? ==> fs.disk.Content(target) == Some(data)
    ensures r.Ok? && hasParent ==> Durable(fs.disk, target, data)
    ensures r.Ok? && !hasParent ==> Undecided(d0, fs.disk, target, data)
    ensures if fs.works then r.Ok? else r.Err? ==> r.error == Encrypt
    ensures r.Ok? ==> forall n :: n != target ==> fs.disk.Entry(n) == d0.Entry(n)
    ensures r.Ok? && hasParent ==> DurableFirst(d0, fs.trace, from, target, data)
  {
    hide AllSafe, Safe, Durable, Undecided, Staged, QuietBut, Published;
    StagedIsSafe(d0, fs.disk, tmp, ino, target, data);
    EntryAloneIsNotDurable(d0, fs.disk, tmp, ino, target, data);
    ghost var before := fs.trace;
    if hasParent {
      StagedSyncDir(d0, fs.disk, tmp, ino, data);
      var ok := fs.FsyncDir();
      StagedIsSafe(d0, fs.disk, tmp, ino, target, data);
      SafeExtends(d0, before, from, target, data, fs.disk);
      if !ok {
        return Err(Encrypt);
      }
      assert fs.trace[|fs.trace| - 1].Entry(target) == d0.Entry(target);
    }
    ghost var staged := |fs.trace| - 1;
    StagedRename(d0, fs.disk, tmp, ino, target, data);
    before := fs.trace;
    var ok := fs.Rename(tmp, target);
    if !ok {
      SafeExtends(d0, before, from, target, data, fs.disk);
      return Err(Encrypt);
    }
    PublishedIsSafe(d0, fs.disk, tmp, target, ino, data);
    PublishedReads(d0, fs.disk, target, ino, data);
    QuietEntries(d0, fs.disk, tmp, target);
    SafeExtends(d0, before, from, target, data, fs.disk);
    if hasParent {
      PublishedSyncDir(d0, fs.disk, {tmp, target}, target, ino, data);
      before := fs.trace;
      ok := fs.FsyncDir();
      PublishedIsSafe(d0, fs.disk, tmp, target, ino, data);
      PublishedReads(d0, fs.disk, target, ino, data);
      SafeExtends(d0, before, from, target, data, fs.disk);
      if !ok {
        return Err(Encrypt);
      }
      assert Durable(fs.trace[staged], tmp, data);
    }
    return Ok(());
  }

  // ------------------------------------------------------------------- creation

  /** As `Safe`, and an existing target is never touched; `tmp` is excepted. */
  ghost predicate CreateSafe(d0: Disk, d: Disk, tmp: Name, target: Name, data: Bytes) {
    && (target in d0.entries ==> Undisturbed(d0, d, target))
    && (d.Content(target) == d0.Content(target) || d.Content(target) == Some(data))
    && (forall x :: d.CrashReads(target, x) ==>
          d0.CrashReads(target, x) || (x == Some(data) && d.Content(target) == Some(data)))
    && forall n :: n in d0.entries && n != target && n != tmp ==> Undisturbed(d0, d, n)
  }

  ghost predicate AllCreateSafe(d0: Disk, trace: seq<Disk>, from: nat, tmp: Name, target: Name, data: Bytes) {
    1 <= from <= |trace| && forall k :: from - 1 <= k < |trace| ==> CreateSafe(d0, trace[k], tmp, target, data)
  }

  lemma CreateSafeExtends(d0: Disk, trace: seq<Disk>, from: nat, tmp: Name, target: Name, data: Bytes, d: Disk)
    requires AllCreateSafe(d0, trace, from, tmp, target, data) && CreateSafe(d0, d, tmp, target, data)
    ensures AllCreateSafe(d0, trace + [d], from, tmp, target, data)
  {
    hide CreateSafe;
  }

  lemma QuietIsCreateSafe(d0: Disk, d: Disk, tmp: Name, target: Name, data: Bytes)
    requires d0.Valid() && QuietBut(d0, d, {tmp}) && tmp != target
    ensures CreateSafe(d0, d, tmp, target, data)
  {
    forall n | n != tmp
      ensures Undisturbed(d0, d, n)
    {
      QuietName(d0, d, {tmp}, n);
    }
    assert Undisturbed(d0, d, target);
  }

  lemma QuietTraceIsCreateSafe(d0: Disk, trace: seq<Disk>, from: nat, tmp: Name, target: Name, data: Bytes)
    requires d0.Valid() && AllQuiet(d0, trace, from, tmp) && tmp != target
    ensures AllCreateSafe(d0, trace, from, tmp, target, data)
  {
    forall k | from - 1 <= k < |trace|
      ensures CreateSafe(d0, trace[k], tmp, target, data)
    {
      QuietIsCreateSafe(d0, trace[k], tmp, target, data);
    }
  }

  lemma LinkedIsCreateSafe(d0: Disk, d: Disk, tmp: Name, target: Name, ino: Ino, data: Bytes)
    requires d0.Valid() && QuietBut(d0, d, {tmp, target}) && target !in d0.entries
    requires Published(d0, d, target, ino, data)
    ensures CreateSafe(d0, d, tmp, target, data)
    ensures d.Content(target) == Some(data)
  {
    forall x | d.CrashReads(target, x)
      ensures d0.CrashReads(target, x) || x == Some(data)
    {
      if x.Some? && x != Some(data) {
        var i: Ino :| Some(i) in d.Possible(target) && i in d.inodes && d.inodes[i].MayHold(x.value);
        assert Some(i) in d0.Possible(target);
        assert i in d0.inodes && d0.inodes[i].MayHold(x.value);
      }
    }
    forall n | n in d0.entries && n != target && n != tmp
      ensures Undisturbed(d0, d, n)
    {
      QuietName(d0, d, {tmp, target}, n);
    }
  }

  lemma StagedLink(d0: Disk, d: Disk, tmp: Name, ino: Ino, target: Name, data: Bytes)
    requires d0.Valid() && Staged(d0, d, tmp, ino, data) && tmp != target
    ensures tmp in d.entries && d.entries[tmp] == ino && d.Entry(target) == d0.Entry(target)
    ensures var d' := d.SetEntry(target, Some(ino));
            QuietBut(d0, d', {tmp, target}) && Published(d0, d', target, ino, data)
    ensures CreateSafe(d0, d, tmp, target, data)
  {
    QuietIsCreateSafe(d0, d, tmp, target, data);
  }

  lemma PublishedRemove(d0: Disk, d: Disk, tmp: Name, target: Name, ino: Ino, data: Bytes)
    requires QuietBut(d0, d, {tmp, target}) && Published(d0, d, target, ino, data) && tmp != target
    ensures QuietBut(d0, d.SetEntry(tmp, None), {tmp, target})
    ensures Published(d0, d.SetEntry(tmp, None), target, ino, data)
    ensures Durable(d, target, data) ==> Durable(d.SetEntry(tmp, None), target, data)
  {
    var d' := d.SetEntry(tmp, None);
    assert d'.Possible(target) == d.Possible(target) && d'.inodes == d.inodes;
    assert forall x :: d'.CrashReads(target, x) <==> d.CrashReads(target, x);
  }

  /** The clean-up after a failure before the link: only `tmp` changes. */
  lemma QuietRemove(d0: Disk, d: Disk, tmp: Name)
    requires QuietBut(d0, d, {tmp})
    ensures QuietBut(d0, d.SetEntry(tmp, None), {tmp})
  {
  }

  /** Nothing that existed is lost or changed, now or after a crash. */
  ghost predicate AllKept(d0: Disk, d: Disk) {
    forall n :: n in d0.entries ==> Undisturbed(d0, d, n)
  }

  /** Which name a creation works under: the draw in hexadecimal, between the target and a suffix. */
  function CreationName(target: Name, pool: Bytes): Name {
    NewName(target, if |pool| >= 12 then pool[..12] else [])
  }

  /** A creation whose temporary name is free keeps to the same rules as a write. */
  lemma FreeNameIsSafe(d0: Disk, trace: seq<Disk>, from: nat, tmp: Name, target: Name, data: Bytes)
    requires AllCreateSafe(d0, trace, from, tmp, target, data) && tmp !in d0.entries
    ensures AllSafe(d0, trace, from, target, data)
  {
    forall k | from - 1 <= k < |trace|
      ensures Safe(d0, trace[k], target, data)
    {
      assert CreateSafe(d0, trace[k], tmp, target, data);
    }
  }

  /** What is kept when the creation returns: everything, unless it removed a file that had its temporary name. */
  lemma KeptIff(d0: Disk, d: Disk, tmp: Name, target: Name, data: Bytes)
    requires d0.Valid() && CreateSafe(d0, d, tmp, target, data) && (target in d0.entries ==> Undisturbed(d0, d, target))
    requires tmp in d0.entries ==> d == d0 || tmp !in d.entries
    ensures AllKept(d0, d) <==> tmp !in d0.entries || d == d0
  {
    if tmp in d0.entries && d != d0 {
      assert !Undisturbed(d0, d, tmp);
    }
  }

  /**
   `atomic_create_locked`. An existing target is never touched, in any state passed
   through; a missing one becomes the complete new file or stays missing. The clean-up
   at the end removes whatever the temporary name refers to. So every file is kept if and
   only if that name was free before; a file that had it is lost, and the call fails.
   */
  method AtomicCreateLocked(fs: FileSystem, rng: Entropy, target: Name, hasParent: bool, data: Bytes)
    returns (r: Result<()>, ghost tmp: Name)
    requires fs.Valid()
    modifies fs`disk, fs`trace, rng
    ensures fs.Valid() && old(fs.trace) <= fs.trace
    ensures tmp == CreationName(target, old(rng.pool))
    ensures AllCreateSafe(old(fs.disk), fs.trace, |old(fs.trace)|, tmp, target, data)
    ensures tmp !in old(fs.disk).entries ==> AllSafe(old(fs.disk), fs.trace, |old(fs.trace)|, target, data)
    ensures AllKept(old(fs.disk), fs.disk) <==> tmp !in old(fs.disk).entries || fs.disk == old(fs.disk)
    ensures fs.works && |old(rng.pool)| >= 12 ==>
              && tmp !in fs.disk.entries
              && (AllKept(old(fs.disk), fs.disk) <==> tmp !in old(fs.disk).entries)
              && (r.Ok? <==> target !in old(fs.disk).entries && tmp !in old(fs.disk).entries)
    ensures r.Ok? ==> target !in old(fs.disk).entries && fs.disk.Content(target) == Some(data)
    ensures r.Ok? && hasParent ==> Durable(fs.disk, target, data)
    ensures r.Ok? && !hasParent ==> Undecided(old(fs.disk), fs.disk, target, data)
    ensures r.Err? ==> r.error == Encrypt || r.error == Rng
    ensures tmp in old(fs.disk).entries ==>
              r.Err? && (fs.disk == old(fs.disk) || fs.disk == old(fs.disk).SetEntry(tmp, None))
    ensures fs.works && r.Ok? ==> forall n :: n != target ==> fs.disk.Entry(n) == old(fs.disk).Entry(n)
  {
    hide CreateSafe, Staged, QuietBut, Durable, Undecided, Published;
    ghost var d0, from := fs.disk, |fs.trace|;
    var drawn := rng.Draw(12);
    if drawn.Err? {
      tmp := NewName(target, []);
      NothingChanged(d0, tmp);
      QuietIsCreateSafe(d0, d0, tmp, target, data);
      FinallyKept(d0, fs.trace, from, tmp, target, data);
      return Err(drawn.error), tmp;
    }
    var name := NewName(target, drawn.value);
    tmp := name;
    r := CreateUnder(fs, name, target, hasParent, data);
    FinallyKept(d0, fs.trace, from, name, target, data);
  }

  lemma FinallyKept(d0: Disk, trace: seq<Disk>, from: nat, tmp: Name, target: Name, data: Bytes)
    requires d0.Valid() && AllCreateSafe(d0, trace, from, tmp, target, data)
    requires var d := trace[|trace| - 1]; tmp in d0.entries ==> d == d0 || tmp !in d.entries
    ensures AllKept(d0, trace[|trace| - 1]) <==> tmp !in d0.entries || trace[|trace| - 1] == d0
    ensures tmp !in d0.entries ==> AllSafe(d0, trace, from, target, data)
  {
    KeptIff(d0, trace[|trace| - 1], tmp, target, data);
    if tmp !in d0.entries {
      FreeNameIsSafe(d0, trace, from, tmp, target, data);
    }
  }

  /** The body of the creation under its temporary name, with the clean-up that follows it. */
  method CreateUnder(fs: FileSystem, tmp: Name, target: Name, hasParent: bool, data: Bytes) returns (r: Result<()>)
    requires fs.Valid() && tmp != target
    modifies fs`disk, fs`trace
    ensures fs.Valid() && old(fs.trace) <= fs.trace
    ensures AllCreateSafe(old(fs.disk), fs.trace, |old(fs.trace)|, tmp, target, data)
    ensures r.Ok? ==> target !in old(fs.disk).entries && fs.disk.Content(target) == Some(data)
    ensures r.Ok? && hasParent ==> Durable(fs.disk, target, data)
    ensures r.Ok? && !hasParent ==> Undecided(old(fs.disk), fs.disk, target, data)
    ensures r.Err? ==> r.error == Encrypt
    ensures tmp in old(fs.disk).entries ==>
              r.Err? && (fs.disk == old(fs.disk) || fs.disk == old(fs.disk).SetEntry(tmp, None))
    ensures fs.works ==>
              && tmp !in fs.disk.entries
              && (r.Ok? <==> target !in old(fs.disk).entries && tmp !in old(fs.disk).entries)
    ensures fs.works && r.Ok? ==> forall n :: n != target ==> fs.disk.Entry(n) == old(fs.disk).Entry(n)
  {
    hide CreateSafe, Staged, QuietBut, Durable, Undecided, Published;
    ghost var d0, from := fs.disk, |fs.trace|;
    var made, ok := Stage(fs, tmp, data);
    QuietTraceIsCreateSafe(d0, fs.trace, from, tmp, target, data);
    if !ok {
      QuietRemove(d0, fs.disk, tmp);
      var _ := fs.RemoveFile(tmp);
      QuietIsCreateSafe(d0, fs.disk, tmp, target, data);
      return Err(Encrypt);
    }
    r := LinkStaged(fs, tmp, made.ino, target, hasParent, data, d0, from);
    if fs.works {
      QuietEntries(d0, fs.disk, tmp, target);
    }
  }

  /** From a synced temporary file on: link the target to it, sync the directory, remove the temporary name. */
  method LinkStaged(fs: FileSystem, tmp: Name, ino: Ino, target: Name, hasParent: bool, data: Bytes,
                    ghost d0: Disk, ghost from: nat)
    returns (r: Result<()>)
    requires fs.Valid() && d0.Valid() && tmp != target
    requires Staged(d0, fs.disk, tmp, ino, data) && fs.disk.Possible(target) == d0.Possible(target)
    requires AllCreateSafe(d0, fs.trace, from, tmp, target, data)
    modifies fs`disk, fs`trace
    ensures fs.Valid() && old(fs.trace) <= fs.trace
    ensures AllCreateSafe(d0, fs.trace, from, tmp, target, data)
    ensures r.Ok? ==> target !in d0.entries && fs.disk.Content(target) == Some(data)
    ensures r.Ok? && hasParent ==> Durable(fs.disk, target, data)
    ensures r.Ok? && !hasParent ==> Undecided(d0, fs.disk, target, data)
    ensures r.Err? ==> r.error == Encrypt
    ensures fs.works ==> tmp !in fs.disk.entries && (r.Ok? <==> target !in d0.entries)
    ensures QuietBut(d0, fs.disk, {tmp, target})
  {
    hide AllCreateSafe, CreateSafe, Staged, QuietBut, Durable, Undecided, Published;
    ghost var staged := fs.disk;
    StagedLink(d0, staged, tmp, ino, target, data);
    EntryAloneIsNotDurable(d0, staged, tmp, ino, target, data);
    ghost var before := fs.trace;
    var ok := fs.HardLink(tmp, target);
    if !ok {
      StagedGoes(d0, staged, tmp, ino, target, data);
      CreateSafeExtends(d0, before, from, tmp, target, data, fs.disk);
      before := fs.trace;
      var _ := fs.RemoveFile(tmp);
      CreateSafeExtends(d0, before, from, tmp, target, data, fs.disk);
      return Err(Encrypt);
    }
    LinkedIsCreateSafe(d0, fs.disk, tmp, target, ino, data);
    CreateSafeExtends(d0, before, from, tmp, target, data, fs.disk);
    r := Ok(());
    if hasParent {
      PublishedSyncDir(d0, fs.disk, {tmp, target}, target, ino, data);
      before := fs.trace;
      ok := fs.FsyncDir();
      LinkedIsCreateSafe(d0, fs.disk, tmp, target, ino, data);
      CreateSafeExtends(d0, before, from, tmp, target, data, fs.disk);
      if !ok {
        r := Err(Encrypt);
      }
    }
    PublishedRemove(d0, fs.disk, tmp, target, ino, data);
    before := fs.trace;
    var _ := fs.RemoveFile(tmp);
    LinkedIsCreateSafe(d0, fs.disk, tmp, target, ino, data);
    CreateSafeExtends(d0, before, from, tmp, target, data, fs.disk);
  }

  lemma StagedQuiet(d0: Disk, d: Disk, tmp: Name, ino: Ino, data: Bytes)
    requires Staged(d0, d, tmp, ino, data)
    ensures QuietBut(d0, d, {tmp})
  {
  }

  /** With the temporary file in place or taken away again, nothing else has happened. */
  lemma StagedGoes(d0: Disk, d: Disk, tmp: Name, ino: Ino, target: Name, data: Bytes)
    requires d0.Valid() && Staged(d0, d, tmp, ino, data) && tmp != target
    ensures QuietBut(d0, d, {tmp, target}) && QuietBut(d0, d.SetEntry(tmp, None), {tmp, target})
    ensures CreateSafe(d0, d, tmp, target, data) && CreateSafe(d0, d.SetEntry(tmp, None), tmp, target, data)
  {
    hide Staged, QuietBut, CreateSafe;
    StagedQuiet(d0, d, tmp, ino, data);
    QuietRemove(d0, d, tmp);
    QuietWider(d0, d, tmp, target);
    QuietWider(d0, d.SetEntry(tmp, None), tmp, target);
    QuietIsCreateSafe(d0, d, tmp, target, data);
    QuietIsCreateSafe(d0, d.SetEntry(tmp, None), tmp, target, data);
  }

  /** A creation that destroys a file: the user had one under the name that was drawn. */
  method OccupiedNameIsLost(target: Name, nonce: Bytes, mine: Bytes, data: Bytes)
    returns (before: Disk, after: Disk, r: Result<()>)
    requires |nonce| == 12
    ensures before.Content(target).None? && before.Content(NewName(target, nonce)) == Some(mine)
    ensures r.Err? && after.Content(target).None? && after.Content(NewName(target, nonce)).None?
  {
    before := Disk(map[0 := Inode(mine, true)], map[NewName(target, nonce) := 0], map[]);
    var fs := new FileSystem(true, before);
    var rng := new Entropy(nonce);
    assert nonce[..12] == nonce;
    ghost var tmp;
    r, tmp := AtomicCreateLocked(fs, rng, target, true, data);
    after := fs.disk;
  }

  /**
   After a crash at any recorded moment the target is what it could be before, or the new file,
   if there is one and it was already in place at that moment.
   */
  ghost predicate CrashOldOrNew(d0: Disk, trace: seq<Disk>, from: nat, target: Name, image: Option<Bytes>) {
    && 1 <= from <= |trace|
    && forall k, x :: from - 1 <= k < |trace| && trace[k].CrashReads(target, x) ==>
         d0.CrashReads(target, x) || (x.Some? && x == image == trace[k].Content(target))
  }

  lemma SafeCrashes(d0: Disk, trace: seq<Disk>, from: nat, target: Name, data: Bytes)
    requires AllSafe(d0, trace, from, target, data)
    ensures CrashOldOrNew(d0, trace, from, target, Some(data))
  {
  }

  lemma CreateSafeCrashes(d0: Disk, trace: seq<Disk>, from: nat, tmp: Name, target: Name, data: Bytes)
    requires AllCreateSafe(d0, trace, from, tmp, target, data)
    ensures CrashOldOrNew(d0, trace, from, target, Some(data))
  {
  }

  /** While nothing happens a crash brings nothing new. */
  lemma NothingCrashes(d: Disk, trace: seq<Disk>, target: Name)
    requires |trace| > 0 && trace[|trace| - 1] == d
    ensures forall image :: CrashOldOrNew(d, trace, |trace|, target, image)
  {
  }

  /** Taking a lock first adds nothing to what a crash may bring of another name. */
  lemma CrashAfterQuiet(d0: Disk, trace: seq<Disk>, from: nat, tmp: Name, full: seq<Disk>, target: Name,
                        image: Option<Bytes>)
    requires d0.Valid() && AllQuiet(d0, trace, from, tmp) && tmp != target && trace <= full
    requires CrashOldOrNew(trace[|trace| - 1], full, |trace|, target, image)
    ensures CrashOldOrNew(d0, full, from, target, image)
  {
    forall k, x | from - 1 <= k < |trace| && trace[k].CrashReads(target, x)
      ensures d0.CrashReads(target, x)
    {
      QuietName(d0, trace[k], {tmp}, target);
    }
    forall k, x | from - 1 <= k < |full| && full[k].CrashReads(target, x)
      ensures d0.CrashReads(target, x) || (x.Some? && x == image == full[k].Content(target))
    {
      if k < |trace| {
        assert full[k] == trace[k];
      }
    }
  }

  // ----------------------------------------------------------------------- lock

  /** `acquire_write_lock`: one holder at a time; a held lock is refused, not waited for. */
  method AcquireWriteLock(fs: FileSystem, target: Name) returns (r: Result<()>)
    requires fs.Valid()
    modifies fs
    ensures fs.Valid() && old(fs.trace) <= fs.trace
    ensures r.Ok? ==> target !in old(fs.locks) && fs.locks == old(fs.locks) + {target}
    ensures r.Err? ==> fs.locks == old(fs.locks) && r.error == Encrypt
    ensures fs.works ==> (r.Ok? <==> target !in old(fs.locks))
    ensures NamesFree(old(fs.disk), target) ==> NamesFree(fs.disk, target)
    ensures AllQuiet(old(fs.disk), fs.trace, |old(fs.trace)|, LockName(target))
    ensures forall n :: n != LockName(target) ==> fs.disk.Entry(n) == old(fs.disk).Entry(n)
    ensures fs.disk == old(fs.disk)
            || (old(fs.disk).Content(LockName(target)).None? && fs.disk.Content(LockName(target)) == Some([]))
    ensures forall n :: n != LockName(target) ==> fs.disk.Content(n) == old(fs.disk).Content(n)
  {
    hide QuietBut, NamesFree;
    var lock := LockName(target);
    ghost var d0 := fs.disk;
    NothingChanged(fs.disk, lock);
    if lock !in fs.disk.entries {
      var made := fs.CreateNew(lock);
      if !made.Created? {
        return Err(Encrypt);
      }
      LockMade(d0, target, made.ino);
    }
    if target in fs.locks {
      return Err(Encrypt);
    }
    fs.locks := fs.locks + {target};
    return Ok(());
  }

  /** Creating the lock file touches nothing else. */
  lemma LockMade(d0: Disk, target: Name, ino: Ino)
    requires d0.Valid() && LockName(target) !in d0.entries && ino !in d0.inodes
    ensures var d := d0.SetInode(ino, Inode([], false)).SetEntry(LockName(target), Some(ino));
            && QuietBut(d0, d, {LockName(target)}) && (NamesFree(d0, target) ==> NamesFree(d, target))
            && d0.Content(LockName(target)).None? && d.Content(LockName(target)) == Some([])
            && forall n :: n != LockName(target) ==> d.Entry(n) == d0.Entry(n) && d.Content(n) == d0.Content(n)
  {
    LockNameIsApart(target);
  }

  lemma LockNameIsApart(target: Name)
    ensures forall nonce :: LockName(target) != TempName(target, nonce) && LockName(target) != NewName(target, nonce)
  {
    forall nonce
      ensures LockName(target) != TempName(target, nonce) && LockName(target) != NewName(target, nonce)
    {
      var (l, t, n) := (LockName(target), TempName(target, nonce), NewName(target, nonce));
      assert l[|l| - 1] == 'k' && t[|t| - 1] == 'p' && n[|n| - 1] == 'w';
    }
  }

  method ReleaseWriteLock(fs: FileSystem, target: Name)
    modifies fs`locks
    ensures fs.locks == old(fs.locks) - {target}
  {
    fs.locks := fs.locks - {target};
  }
}
