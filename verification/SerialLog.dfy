/** The serial log archive: session directories, a quota with oldest-first
    retention, and a running counter of the unpinned bytes. The archive is an
    in-memory map; a write is visible at once and happens as a whole or not at
    all. Every operation below runs under the storage lock. */
module SerialLog {
  import opened Common
  import opened SegmentLog

  type Id = nat

  datatype Status = Recording | Complete | Incomplete | Interrupted

  datatype Manifest = Manifest(status: Status, startedAt: nat, bytes: nat, records: nat, segments: nat,
                               dropped: nat)

  /** A session directory; `manifestSize` is the length of manifest.json and the
      pin marker is an empty file. */
  datatype Dir = Dir(manifest: Manifest, manifestSize: nat, pinned: bool, files: Segments)

  type Dirs = map<Id, Dir>

  datatype Config = Config(totalBytes: nat, segmentBytes: nat)

  /** What an operation finds outside: the directory listing sorted by start
      time, and which directories are past the retention age. */
  datatype Env = Env(order: seq<Id>, expired: set<Id>)

  // ---------------------------------------------------------------------
  // Sizes.

  function IndexSize(index: seq<IndexEntry>): nat {
    if index == [] then 0 else IndexSize(index[..|index| - 1]) + index[|index| - 1].lineBytes
  }

  function FilesSize(files: Segments): nat {
    if files == [] then 0
    else
      var last := files[|files| - 1];
      FilesSize(files[..|files| - 1]) + |last.raw| + IndexSize(last.index)
  }

  /** `directory_size`. */
  function Size(d: Dir): nat {
    d.manifestSize + FilesSize(d.files)
  }

  function Weight(d: Dir): nat {
    if d.pinned then 0 else Size(d)
  }

  lemma ExtendedSize(files: Segments, bytes: Bytes, entry: IndexEntry)
    requires files != []
    ensures FilesSize(Extended(files, bytes, entry)) == FilesSize(files) + |bytes| + entry.lineBytes
  {
    var n := |files| - 1;
    var r := Extended(files, bytes, entry);
    assert r[..n] == files[..n];
    assert r[n].index[..|r[n].index| - 1] == files[n].index;
  }

  lemma WrittenSize(files: Segments, active: Active, bytes: Bytes, line: nat, limit: nat)
    requires files != []
    ensures FilesSize(Written(files, active, bytes, line, limit)) == FilesSize(files) + |bytes| + line
  {
    var ready := Opened(files, active, |bytes|, limit);
    assert FilesSize(ready) == FilesSize(files) by {
      if Rotates(active, |bytes|, limit) {
        assert ready[..|ready| - 1] == files;
      }
    }
    ExtendedSize(ready, bytes, EntryFor(active, |bytes|, line, limit));
  }

  /** The bytes of all unpinned session directories. */
  ghost function Unpinned(dirs: Dirs): nat
    decreases |dirs|
  {
    if dirs == map[] then 0
    else
      var id :| id in dirs;
      Weight(dirs[id]) + Unpinned(dirs - {id})
  }

  lemma {:induction false} UnpinnedWithout(dirs: Dirs, id: Id)
    requires id in dirs
    ensures Unpinned(dirs) == Weight(dirs[id]) + Unpinned(dirs - {id})
    decreases |dirs|
  {
    var first :| first in dirs && Unpinned(dirs) == Weight(dirs[first]) + Unpinned(dirs - {first});
    if first != id {
      UnpinnedWithout(dirs - {first}, id);
      UnpinnedWithout(dirs - {id}, first);
      assert dirs - {first} - {id} == dirs - {id} - {first};
    }
  }

  lemma UnpinnedUpdate(dirs: Dirs, id: Id, d: Dir)
    ensures Unpinned(dirs[id := d]) == Unpinned(dirs - {id}) + Weight(d)
    ensures id in dirs ==> Unpinned(dirs[id := d]) + Weight(dirs[id]) == Unpinned(dirs) + Weight(d)
  {
    UnpinnedWithout(dirs[id := d], id);
    assert dirs[id := d] - {id} == dirs - {id};
    if id in dirs {
      UnpinnedWithout(dirs, id);
    }
  }

  /** The sum over a listing, in the listing's order. */
  function ListedWeight(dirs: Dirs, order: seq<Id>): nat
    requires forall id | id in order :: id in dirs
  {
    if order == [] then 0
    else
      assert order[|order| - 1] in order;
      ListedWeight(dirs, order[..|order| - 1]) + Weight(dirs[order[|order| - 1]])
  }

  lemma {:induction false} ListedWeightLocal(dirs: Dirs, order: seq<Id>, id: Id)
    requires id !in order && forall other | other in order :: other in dirs
    ensures ListedWeight(dirs, order) == ListedWeight(dirs - {id}, order)
  {
    if order != [] {
      ListedWeightLocal(dirs, order[..|order| - 1], id);
    }
  }

  lemma {:induction false} ListedIsUnpinned(dirs: Dirs, order: seq<Id>)
    requires Distinct(order)
    requires (forall id | id in dirs :: id in order) && (forall id | id in order :: id in dirs)
    ensures ListedWeight(dirs, order) == Unpinned(dirs)
    decreases |order|
  {
    if order == [] {
      assert dirs == map[];
    } else {
      var n := |order| - 1;
      var id, front := order[n], order[..n];
      assert order == front + [id] && id !in front;
      UnpinnedWithout(dirs, id);
      ListedWeightLocal(dirs, front, id);
      ListedIsUnpinned(dirs - {id}, front);
    }
  }

  // ---------------------------------------------------------------------
  // Retention.

  predicate Eligible(d: Dir) {
    d.manifest.status != Recording && !d.pinned
  }

  predicate Distinct(order: seq<Id>) {
    forall i, j | 0 <= i < j < |order| :: order[i] != order[j]
  }

  /** A directory listing, oldest session first. */
  predicate Listing(dirs: Dirs, order: seq<Id>) {
    && Distinct(order)
    && (forall id | id in dirs :: id in order)
    && (forall id | id in order :: id in dirs)
    && (forall i, j | 0 <= i < j < |order| ::
          dirs[order[i]].manifest.startedAt <= dirs[order[j]].manifest.startedAt)
  }

  lemma ListingCovers(dirs: Dirs, order: seq<Id>)
    requires Listing(dirs, order)
    ensures Distinct(order) && forall id | id in order :: id in dirs
  {
  }

  datatype Swept = Swept(dirs: Dirs, freed: nat, deleted: seq<Id>)

  predicate Keeps(dirs: Dirs, id: Id, total: nat, quota: nat, expired: set<Id>)
    requires id in dirs
  {
    !Eligible(dirs[id]) || (total <= quota && id !in expired)
  }

  function Sweep(dirs: Dirs, order: seq<Id>, total: nat, quota: nat, expired: set<Id>): Swept
    requires Distinct(order) && forall id | id in order :: id in dirs
    decreases |order|
  {
    if order == [] then Swept(dirs, 0, [])
    else
      var id, rest := order[0], order[1..];
      if Keeps(dirs, id, total, quota, expired) then Sweep(dirs, rest, total, quota, expired)
      else
        var size := Size(dirs[id]);
        var r := Sweep(dirs - {id}, rest, SatSub(total, size), quota, expired);
        Swept(r.dirs, size + r.freed, [id] + r.deleted)
  }

  function Removed(dirs: Dirs, deleted: seq<Id>): Dirs {
    if deleted == [] then dirs else Removed(dirs - {deleted[0]}, deleted[1..])
  }

  lemma {:induction false} RemovedContents(dirs: Dirs, deleted: seq<Id>)
    ensures forall id :: id in Removed(dirs, deleted) <==> id in dirs && id !in deleted
    ensures forall id | id in Removed(dirs, deleted) :: Removed(dirs, deleted)[id] == dirs[id]
    decreases |deleted|
  {
    if deleted != [] {
      RemovedContents(dirs - {deleted[0]}, deleted[1..]);
      assert forall id :: id in deleted <==> id == deleted[0] || id in deleted[1..];
    }
  }

  /** Retention deletes only completed unpinned sessions, frees what they weigh,
      and ends within the quota or with none of them left. */
  lemma {:induction false} SweepAccounts(dirs: Dirs, order: seq<Id>, quota: nat, expired: set<Id>)
    requires Distinct(order) && forall id | id in order :: id in dirs
    ensures var r := Sweep(dirs, order, Unpinned(dirs), quota, expired);
            && r.dirs == Removed(dirs, r.deleted)
            && r.freed + Unpinned(r.dirs) == Unpinned(dirs)
            && (forall id | id in r.deleted :: id in order && Eligible(dirs[id]))
            && (|| Unpinned(r.dirs) <= quota
                || forall id | id in order && id in r.dirs :: !Eligible(dirs[id]))
    decreases |order|
  {
    hide Unpinned, Size;
    if order != [] {
      var id, rest := order[0], order[1..];
      if Keeps(dirs, id, Unpinned(dirs), quota, expired) {
        SweepAccounts(dirs, rest, quota, expired);
        SweepShrinks(dirs, rest, quota, expired);
      } else {
        UnpinnedWithout(dirs, id);
        SweepAccounts(dirs - {id}, rest, quota, expired);
        SweepRemoves(dirs - {id}, rest, quota, expired);
      }
    }
  }

  lemma SweepShrinks(dirs: Dirs, order: seq<Id>, quota: nat, expired: set<Id>)
    requires Distinct(order) && forall id | id in order :: id in dirs
    requires var r := Sweep(dirs, order, Unpinned(dirs), quota, expired);
             r.freed + Unpinned(r.dirs) == Unpinned(dirs)
    ensures Unpinned(Sweep(dirs, order, Unpinned(dirs), quota, expired).dirs) <= Unpinned(dirs)
  {
  }

  lemma SweepRemoves(dirs: Dirs, order: seq<Id>, quota: nat, expired: set<Id>)
    requires Distinct(order) && forall id | id in order :: id in dirs
    requires var r := Sweep(dirs, order, Unpinned(dirs), quota, expired); r.dirs == Removed(dirs, r.deleted)
    ensures var r := Sweep(dirs, order, Unpinned(dirs), quota, expired);
            forall id :: id in r.dirs <==> id in dirs && id !in r.deleted
  {
    RemovedContents(dirs, Sweep(dirs, order, Unpinned(dirs), quota, expired).deleted);
  }

  /** Within the quota only expired sessions go. */
  lemma {:induction false} WithinQuotaOnlyExpired(dirs: Dirs, order: seq<Id>, total: nat, quota: nat,
                                                  expired: set<Id>)
    requires Distinct(order) && forall id | id in order :: id in dirs
    requires total <= quota
    ensures forall id | id in Sweep(dirs, order, total, quota, expired).deleted :: id in expired
    decreases |order|
  {
    if order != [] {
      var id, rest := order[0], order[1..];
      if Keeps(dirs, id, total, quota, expired) {
        WithinQuotaOnlyExpired(dirs, rest, total, quota, expired);
      } else {
        WithinQuotaOnlyExpired(dirs - {id}, rest, SatSub(total, Size(dirs[id])), quota, expired);
      }
    }
  }

  /** The sessions deleted for the quota are an oldest-first prefix of the
      eligible ones: when one goes, every eligible one before it goes too. */
  lemma {:induction false} QuotaDeletesPrefix(dirs: Dirs, order: seq<Id>, total: nat, quota: nat,
                                              expired: set<Id>, i: nat, j: nat)
    requires Distinct(order) && forall id | id in order :: id in dirs
    requires i < j < |order| && Eligible(dirs[order[i]]) && order[j] !in expired
    requires order[j] in Sweep(dirs, order, total, quota, expired).deleted
    ensures order[i] in Sweep(dirs, order, total, quota, expired).deleted
    decreases |order|
  {
    var id, rest := order[0], order[1..];
    if i == 0 {
      if Keeps(dirs, id, total, quota, expired) {
        WithinQuotaOnlyExpired(dirs, rest, total, quota, expired);
      }
    } else if Keeps(dirs, id, total, quota, expired) {
      QuotaDeletesPrefix(dirs, rest, total, quota, expired, i - 1, j - 1);
    } else {
      QuotaDeletesPrefix(dirs - {id}, rest, SatSub(total, Size(dirs[id])), quota, expired, i - 1, j - 1);
    }
  }

  /** And only as many go as the quota asks for: before each of them is deleted,
      the archive is still over the quota. */
  lemma {:induction false} QuotaDeletesOnlyNeeded(dirs: Dirs, order: seq<Id>, quota: nat, expired: set<Id>,
                                                  p: nat)
    requires Distinct(order) && forall id | id in order :: id in dirs
    requires var deleted := Sweep(dirs, order, Unpinned(dirs), quota, expired).deleted;
             p < |deleted| && deleted[p] !in expired
    ensures var deleted := Sweep(dirs, order, Unpinned(dirs), quota, expired).deleted;
            Unpinned(Removed(dirs, deleted[..p])) > quota
    decreases |order|
  {
    var id, rest := order[0], order[1..];
    var deleted := Sweep(dirs, order, Unpinned(dirs), quota, expired).deleted;
    if Keeps(dirs, id, Unpinned(dirs), quota, expired) {
      QuotaDeletesOnlyNeeded(dirs, rest, quota, expired, p);
    } else {
      UnpinnedWithout(dirs, id);
      if p > 0 {
        QuotaDeletesOnlyNeeded(dirs - {id}, rest, quota, expired, p - 1);
        assert deleted[..p][1..] == deleted[1..][..p - 1];
      }
    }
  }

  /** What is deleted of the sessions before position `j` of the listing. */
  function GoneBefore(deleted: seq<Id>, order: seq<Id>, j: nat): set<Id>
    requires j <= |order|
  {
    set id | id in deleted && id in order[..j]
  }

  lemma GoneBeforeStep(deleted: seq<Id>, order: seq<Id>, j: nat)
    requires 0 < j <= |order| && Distinct(order)
    ensures order[0] !in deleted ==> GoneBefore(deleted, order, j) == GoneBefore(deleted, order[1..], j - 1)
    ensures GoneBefore([order[0]] + deleted, order, j) == {order[0]} + GoneBefore(deleted, order[1..], j - 1)
  {
    assert order[..j] == [order[0]] + order[1..][..j - 1];
  }

  lemma RestIsDistinct(order: seq<Id>)
    requires Distinct(order) && order != []
    ensures Distinct(order[1..]) && order[0] !in order[1..]
  {
  }

  /** Retention decides each session in turn: it goes exactly when it is completed and
      unpinned and either too old or the archive, after the deletions before it, is
      still over the quota. */
  lemma {:induction false} DeletedExactly(dirs: Dirs, order: seq<Id>, quota: nat, expired: set<Id>, j: nat)
    requires Distinct(order) && (forall id | id in order :: id in dirs) && j < |order|
    ensures var deleted := Sweep(dirs, order, Unpinned(dirs), quota, expired).deleted;
            order[j] in deleted <==>
              && dirs[order[j]].manifest.status != Recording && !dirs[order[j]].pinned
              && (order[j] in expired || Unpinned(dirs - GoneBefore(deleted, order, j)) > quota)
    decreases |order|
  {
    hide Unpinned;
    var id, rest := order[0], order[1..];
    var deleted := Sweep(dirs, order, Unpinned(dirs), quota, expired).deleted;
    RestIsDistinct(order);
    if Keeps(dirs, id, Unpinned(dirs), quota, expired) {
      SweepAccounts(dirs, rest, quota, expired);
      if j == 0 {
        assert dirs - GoneBefore(deleted, order, 0) == dirs;
      } else {
        GoneBeforeStep(deleted, order, j);
        DeletedExactly(dirs, rest, quota, expired, j - 1);
      }
    } else {
      var later := Sweep(dirs - {id}, rest, SatSub(Unpinned(dirs), Size(dirs[id])), quota, expired).deleted;
      UnpinnedWithout(dirs, id);
      assert deleted == [id] + later;
      if j == 0 {
        assert dirs - GoneBefore(deleted, order, 0) == dirs;
      } else {
        GoneBeforeStep(later, order, j);
        DeletedExactly(dirs - {id}, rest, quota, expired, j - 1);
        var gone := GoneBefore(later, rest, j - 1);
        assert (dirs - {id}) - gone == dirs - ({id} + gone);
      }
    }
  }

  /** No completed unpinned session outlives its retention age. */
  lemma ExpiredAreDeleted(dirs: Dirs, order: seq<Id>, quota: nat, expired: set<Id>, id: Id)
    requires Distinct(order) && (forall other | other in order :: other in dirs) && id in order
    requires id in expired && dirs[id].manifest.status != Recording && !dirs[id].pinned
    ensures var r := Sweep(dirs, order, Unpinned(dirs), quota, expired); id in r.deleted && id !in r.dirs
  {
    var j :| 0 <= j < |order| && order[j] == id;
    DeletedExactly(dirs, order, quota, expired, j);
    hide Sweep, Unpinned;
    SweepAccounts(dirs, order, quota, expired);
    SweepRemoves(dirs, order, quota, expired);
  }

  /** Retention in terms of age: a completed unpinned session survives only if no
      younger one was deleted for the quota. */
  lemma OldestGoFirst(dirs: Dirs, env: Env, quota: nat, elder: Id, young: Id)
    requires Listing(dirs, env.order) && elder in dirs && young in dirs
    requires Eligible(dirs[elder]) && dirs[elder].manifest.startedAt < dirs[young].manifest.startedAt
    requires var r := Sweep(dirs, env.order, Unpinned(dirs), quota, env.expired);
             young in r.deleted && young !in env.expired
    ensures elder in Sweep(dirs, env.order, Unpinned(dirs), quota, env.expired).deleted
  {
    var i :| 0 <= i < |env.order| && env.order[i] == elder;
    var j :| 0 <= j < |env.order| && env.order[j] == young;
    QuotaDeletesPrefix(dirs, env.order, Unpinned(dirs), quota, env.expired, i, j);
  }

  // ---------------------------------------------------------------------
  // The store and its operations.

  datatype Store = Store(dirs: Dirs, sessions: map<Id, Active>, counter: nat)

  /** The counter is exact, and every session in the writer's map has its
      recording directory. */
  ghost predicate Inv(s: Store) {
    && s.counter == Unpinned(s.dirs)
    && (forall id | id in s.dirs ::
          && s.dirs[id].manifestSize > 0 && s.dirs[id].files != []
          && (s.dirs[id].manifest.status == Recording ==> !s.dirs[id].pinned))
    && forall id | id in s.sessions :: id in s.dirs && s.dirs[id].manifest.status == Recording
  }

  function Freed(s: Store, env: Env, quota: nat, total: nat): Store
    requires Distinct(env.order) && forall id | id in env.order :: id in s.dirs
  {
    var r := Sweep(s.dirs, env.order, total, quota, env.expired);
    s.(dirs := r.dirs, counter := SatSub(s.counter, r.freed))
  }

  function FreshDir(startedAt: nat, manifestSize: nat): Dir {
    Dir(Manifest(Recording, startedAt, 0, 0, 1, 0), manifestSize, false, FRESH_FILES)
  }

  ghost function Started(s: Store, cfg: Config, id: Id, startedAt: nat, manifestSize: nat, env: Env,
                         ioOk: bool): Store
    requires Distinct(env.order) && forall id | id in env.order :: id in s.dirs
  {
    var s1 := Freed(s, env, cfg.totalBytes, Unpinned(s.dirs));
    if !ioOk then s1
    else
      var d := FreshDir(startedAt, manifestSize);
      Store(s1.dirs[id := d], s1.sessions[id := FRESH], s1.counter + Size(d))
  }

  datatype DataCode = Accepted | Ignored | QuotaExhausted | IoFailed

  /** The store after the retention a record of `required` bytes causes. */
  ghost function RoomMade(s: Store, cfg: Config, required: nat, env: Env): Store
    requires Distinct(env.order) && forall id | id in env.order :: id in s.dirs
  {
    if s.counter + required > cfg.totalBytes then
      Freed(s, env, SatSub(cfg.totalBytes, required), Unpinned(s.dirs))
    else s
  }

  ghost function DataResult(s: Store, cfg: Config, id: Id, bytes: Bytes, line: nat, env: Env, ioOk: bool)
    : DataCode
    requires Distinct(env.order) && forall id | id in env.order :: id in s.dirs
  {
    if id !in s.sessions then Ignored
    else if RoomMade(s, cfg, |bytes| + line, env).counter + |bytes| + line > cfg.totalBytes then
      QuotaExhausted
    else if !ioOk then IoFailed
    else Accepted
  }

  ghost function Stored(s: Store, cfg: Config, id: Id, bytes: Bytes, line: nat, env: Env, ioOk: bool)
    : Store
    requires Inv(s) && Distinct(env.order) && forall id | id in env.order :: id in s.dirs
  {
    var code := DataResult(s, cfg, id, bytes, line, env, ioOk);
    if code == Ignored then s
    else
      var s1 := RoomMade(s, cfg, |bytes| + line, env);
      var active := s.sessions[id];
      if code != Accepted then s1.(sessions := s.sessions[id := active.(failed := true)])
      else
        var d := s.dirs[id];
        Store(s1.dirs[id := d.(files := Written(d.files, active, bytes, line, cfg.segmentBytes))],
              s.sessions[id := Advanced(active, |bytes|, cfg.segmentBytes)],
              s1.counter + |bytes| + line)
  }

  /** What was lost of a session outside the writer. */
  datatype Loss = Loss(dropped: nat, failed: bool)

  function FinalManifest(m: Manifest, active: Active, loss: Loss): Manifest {
    m.(status := if !loss.failed && !active.failed then Complete else Incomplete,
       bytes := active.bytes, records := active.records, segments := active.segment,
       dropped := loss.dropped)
  }

  function Finished(s: Store, id: Id, loss: Loss, manifestSize: nat, ioOk: bool): Store
    requires id in s.sessions ==> id in s.dirs
  {
    if id !in s.sessions then s
    else if !ioOk then s.(sessions := s.sessions - {id})
    else
      var d := s.dirs[id];
      Store(s.dirs[id := d.(manifest := FinalManifest(d.manifest, s.sessions[id], loss),
                            manifestSize := manifestSize)],
            s.sessions - {id}, Adjusted(s.counter, d.manifestSize, manifestSize))
  }

  function Adjusted(counter: nat, before: nat, after: nat): nat {
    if after >= before then counter + (after - before) else SatSub(counter, before - after)
  }

  datatype AccessCode = Done | NotFound | StillRecording | StillPinned

  function PinCode(s: Store, id: Id): AccessCode {
    if id !in s.dirs then NotFound
    else if s.dirs[id].manifest.status == Recording then StillRecording
    else Done
  }

  function Pinned(s: Store, id: Id, pinned: bool): Store {
    if PinCode(s, id) != Done || s.dirs[id].pinned == pinned then s
    else
      var size := Size(s.dirs[id]);
      s.(dirs := s.dirs[id := s.dirs[id].(pinned := pinned)],
         counter := if pinned then SatSub(s.counter, size) else s.counter + size)
  }

  function DeleteCode(s: Store, id: Id): AccessCode {
    if PinCode(s, id) != Done then PinCode(s, id)
    else if s.dirs[id].pinned then StillPinned
    else Done
  }

  function Deleted(s: Store, id: Id): Store {
    if DeleteCode(s, id) != Done then s
    else s.(dirs := s.dirs - {id}, counter := SatSub(s.counter, Size(s.dirs[id])))
  }

  // ---------------------------------------------------------------------
  // The running counter is exact after every operation.

  lemma FreedKeepsInv(s: Store, env: Env, quota: nat)
    requires Inv(s) && Listing(s.dirs, env.order)
    ensures var s' := Freed(s, env, quota, Unpinned(s.dirs));
            && Inv(s') && s'.counter <= s.counter && s'.sessions == s.sessions
            && (forall id | id in s'.dirs :: id in s.dirs && s'.dirs[id] == s.dirs[id])
            && (forall id | id in s.dirs && !Eligible(s.dirs[id]) :: id in s'.dirs)
            && (s'.counter <= quota || forall id | id in s'.dirs :: !Eligible(s'.dirs[id]))
  {
    hide Sweep, Unpinned;
    SweepAccounts(s.dirs, env.order, quota, env.expired);
    var r := Sweep(s.dirs, env.order, Unpinned(s.dirs), quota, env.expired);
    RemovedContents(s.dirs, r.deleted);
  }

  lemma StartKeepsCounter(s: Store, cfg: Config, id: Id, startedAt: nat, manifestSize: nat, env: Env, ioOk: bool)
    requires Inv(s) && Listing(s.dirs, env.order) && id !in s.dirs && manifestSize > 0
    ensures Inv(Started(s, cfg, id, startedAt, manifestSize, env, ioOk))
  {
    hide Sweep, Unpinned;
    FreedKeepsInv(s, env, cfg.totalBytes);
    var s1 := Freed(s, env, cfg.totalBytes, Unpinned(s.dirs));
    UnpinnedUpdate(s1.dirs, id, FreshDir(startedAt, manifestSize));
    assert s1.dirs - {id} == s1.dirs;
  }

  lemma RoomKeepsInv(s: Store, cfg: Config, required: nat, env: Env)
    requires Inv(s) && Listing(s.dirs, env.order)
    ensures var s1 := RoomMade(s, cfg, required, env);
            && Inv(s1) && s1.sessions == s.sessions
            && (forall id | id in s1.dirs :: id in s.dirs && s1.dirs[id] == s.dirs[id])
            && (forall id | id in s.dirs && !Eligible(s.dirs[id]) :: id in s1.dirs)
  {
    hide Sweep, Unpinned, Inv;
    FreedKeepsInv(s, env, SatSub(cfg.totalBytes, required));
  }

  lemma RecordingIsKept(s: Store, cfg: Config, id: Id, required: nat, env: Env)
    requires Inv(s) && Listing(s.dirs, env.order) && id in s.sessions
    ensures var s1 := RoomMade(s, cfg, required, env);
            && s1.sessions == s.sessions && id in s1.dirs && s1.dirs[id] == s.dirs[id]
            && s.dirs[id].files != []
  {
    hide RoomMade, Unpinned;
    RoomKeepsInv(s, cfg, required, env);
  }

  lemma DataKeepsCounter(s: Store, cfg: Config, id: Id, bytes: Bytes, line: nat, env: Env, ioOk: bool)
    requires Inv(s) && Listing(s.dirs, env.order)
    ensures Inv(Stored(s, cfg, id, bytes, line, env, ioOk))
  {
    hide Sweep, Unpinned, RoomMade;
    RoomKeepsInv(s, cfg, |bytes| + line, env);
    if DataResult(s, cfg, id, bytes, line, env, ioOk) == Accepted {
      var d, active := s.dirs[id], s.sessions[id];
      var files := Written(d.files, active, bytes, line, cfg.segmentBytes);
      WrittenSize(d.files, active, bytes, line, cfg.segmentBytes);
      UnpinnedUpdate(RoomMade(s, cfg, |bytes| + line, env).dirs, id, d.(files := files));
    }
  }

  lemma FinishKeepsCounter(s: Store, id: Id, loss: Loss, manifestSize: nat, ioOk: bool)
    requires Inv(s) && manifestSize > 0
    ensures Inv(Finished(s, id, loss, manifestSize, ioOk))
  {
    hide Unpinned;
    if id in s.sessions && ioOk {
      var d := Finished(s, id, loss, manifestSize, ioOk).dirs[id];
      UnpinnedUpdate(s.dirs, id, d);
    }
  }

  lemma PinKeepsCounter(s: Store, id: Id, pinned: bool)
    requires Inv(s)
    ensures Inv(Pinned(s, id, pinned))
  {
    hide Unpinned;
    if PinCode(s, id) == Done {
      UnpinnedUpdate(s.dirs, id, s.dirs[id].(pinned := pinned));
    }
  }

  lemma DeleteKeepsCounter(s: Store, id: Id)
    requires Inv(s)
    ensures Inv(Deleted(s, id))
  {
    hide Unpinned;
    if DeleteCode(s, id) == Done {
      UnpinnedWithout(s.dirs, id);
    }
  }

  /** After a session start, and after every record that needs room, no completed
      unpinned session past its retention age is left. */
  lemma ExpiredGoAtStart(s: Store, cfg: Config, id: Id, startedAt: nat, manifestSize: nat, env: Env, ioOk: bool,
                         aged: Id)
    requires Inv(s) && Listing(s.dirs, env.order) && id !in s.dirs
    requires aged in s.dirs && Eligible(s.dirs[aged]) && aged in env.expired
    ensures aged !in Started(s, cfg, id, startedAt, manifestSize, env, ioOk).dirs
    ensures forall required | s.counter + required > cfg.totalBytes ::
              aged !in RoomMade(s, cfg, required, env).dirs
  {
    hide Sweep, Unpinned;
    ExpiredAreDeleted(s.dirs, env.order, cfg.totalBytes, env.expired, aged);
    forall required: nat | s.counter + required > cfg.totalBytes
      ensures aged !in RoomMade(s, cfg, required, env).dirs
    {
      ExpiredAreDeleted(s.dirs, env.order, SatSub(cfg.totalBytes, required), env.expired, aged);
    }
  }

  /** A record of a session being written is refused exactly when it does not fit,
      after all that retention could delete; it fails exactly when it fits and the file
      system does not take it. */
  lemma RefusedExactly(s: Store, cfg: Config, id: Id, bytes: Bytes, line: nat, env: Env, ioOk: bool)
    requires Inv(s) && Listing(s.dirs, env.order)
    ensures var code := DataResult(s, cfg, id, bytes, line, env, ioOk);
            var fits := Unpinned(RoomMade(s, cfg, |bytes| + line, env).dirs) + |bytes| + line <= cfg.totalBytes;
            && (code == Ignored <==> id !in s.sessions)
            && (code == QuotaExhausted <==> id in s.sessions && !fits)
            && (code == IoFailed <==> id in s.sessions && fits && !ioOk)
            && (code == Accepted <==> id in s.sessions && fits && ioOk)
  {
    hide Unpinned, RoomMade;
    RoomKeepsInv(s, cfg, |bytes| + line, env);
  }

  /** While everything fits, a record deletes nothing. */
  lemma RoomyRecordsDeleteNothing(s: Store, cfg: Config, required: nat, env: Env)
    requires Inv(s) && Listing(s.dirs, env.order) && Unpinned(s.dirs) + required <= cfg.totalBytes
    ensures RoomMade(s, cfg, required, env) == s
  {
  }

  /** A new session is recording, unpinned and empty, with one fresh segment; the
      sessions being recorded go on, and of the others retention alone takes some. */
  lemma StartTakesEffect(s: Store, cfg: Config, id: Id, startedAt: nat, manifestSize: nat, env: Env, ioOk: bool)
    requires Inv(s) && Listing(s.dirs, env.order) && id !in s.dirs && manifestSize > 0
    ensures var next := Started(s, cfg, id, startedAt, manifestSize, env, ioOk);
            && (id in next.dirs <==> ioOk) && (id in next.sessions <==> ioOk)
            && (ioOk ==>
                  && next.dirs[id] == Dir(Manifest(Recording, startedAt, 0, 0, 1, 0), manifestSize, false,
                                          [Segment([], [])])
                  && next.sessions[id] == Active(1, 0, 0, 0, 0, false))
            && (forall other | other != id :: other in next.sessions <==> other in s.sessions)
            && (forall other | other in s.sessions :: next.sessions[other] == s.sessions[other])
            && (forall other | other in next.dirs && other != id ::
                  other in s.dirs && next.dirs[other] == s.dirs[other])
            && (forall other | other in s.dirs && !Eligible(s.dirs[other]) :: other in next.dirs)
  {
    hide Unpinned, Freed;
    FreedKeepsInv(s, env, cfg.totalBytes);
    assert id !in s.sessions;
  }

  /** A finished session is no longer written, whether or not its manifest could be
      stored. If it could, it says what the writer knows, and the session is complete
      exactly when neither side noted a failure; nothing else changes. */
  lemma FinishTakesEffect(s: Store, id: Id, loss: Loss, manifestSize: nat, ioOk: bool)
    requires Inv(s) && id in s.sessions && manifestSize > 0
    ensures var next, active := Finished(s, id, loss, manifestSize, ioOk), s.sessions[id];
            var m, before := next.dirs[id].manifest, s.dirs[id];
            && next.sessions == s.sessions - {id} && next.dirs.Keys == s.dirs.Keys
            && (forall other | other in s.dirs && other != id :: next.dirs[other] == s.dirs[other])
            && (!ioOk ==> next.dirs[id] == before)
            && (ioOk ==>
                  && next.dirs[id] == Dir(m, manifestSize, before.pinned, before.files)
                  && (m.status == Complete <==> !loss.failed && !active.failed)
                  && (m.status == Incomplete <==> loss.failed || active.failed)
                  && m.startedAt == before.manifest.startedAt && m.bytes == active.bytes
                  && m.records == active.records && m.segments == active.segment && m.dropped == loss.dropped)
  {
    hide Unpinned;
  }

  /** Pinning is for finished sessions, and takes effect; nothing else changes. */
  lemma PinTakesEffect(s: Store, id: Id, pinned: bool)
    requires Inv(s)
    ensures var next := Pinned(s, id, pinned);
            && (PinCode(s, id) == Done <==> id in s.dirs && s.dirs[id].manifest.status != Recording)
            && next.dirs.Keys == s.dirs.Keys && next.sessions == s.sessions
            && (forall other | other in s.dirs && other != id :: next.dirs[other] == s.dirs[other])
            && (id in s.dirs ==>
                  next.dirs[id] == s.dirs[id].(pinned := if PinCode(s, id) == Done then pinned else s.dirs[id].pinned))
  {
    hide Unpinned;
  }

  /** A finished session is deleted exactly when it is not pinned, and nothing else
      goes with it. */
  lemma DeleteTakesEffect(s: Store, id: Id)
    requires Inv(s)
    ensures var next := Deleted(s, id);
            && next.sessions == s.sessions
            && (forall other | other != id :: other in next.dirs <==> other in s.dirs)
            && (forall other | other in next.dirs :: next.dirs[other] == s.dirs[other])
            && (id in s.dirs && id !in next.dirs <==>
                  id in s.dirs && s.dirs[id].manifest.status != Recording && !s.dirs[id].pinned)
            && (DeleteCode(s, id) == Done <==> id in s.dirs && id !in next.dirs)
            && (DeleteCode(s, id) == NotFound <==> id !in s.dirs)
            && (DeleteCode(s, id) == StillPinned <==> id in s.dirs && s.dirs[id].pinned)
  {
    hide Unpinned;
  }

  /** A pin protects: neither retention nor a deletion removes a pinned session, until
      it is unpinned. */
  lemma PinProtects(s: Store, id: Id, cfg: Config, env: Env, required: nat)
    requires Inv(s) && Listing(s.dirs, env.order) && id in s.dirs && s.dirs[id].manifest.status != Recording
    ensures var p := Pinned(s, id, true);
            && Listing(p.dirs, env.order) && Deleted(p, id) == p
            && id in RoomMade(p, cfg, required, env).dirs
            && id in Freed(p, env, cfg.totalBytes, Unpinned(p.dirs)).dirs
            && DeleteCode(Pinned(p, id, false), id) == Done
  {
    hide Unpinned, Freed;
    var p := Pinned(s, id, true);
    PinKeepsCounter(s, id, true);
    assert forall other | other in s.dirs :: p.dirs[other].manifest == s.dirs[other].manifest;
    RoomKeepsInv(p, cfg, required, env);
    FreedKeepsInv(p, env, cfg.totalBytes);
  }

  /** Data is refused for the quota only when no completed unpinned session is
      left to delete. */
  lemma RefusedOnlyWithoutEligible(s: Store, cfg: Config, id: Id, bytes: Bytes, line: nat, env: Env, ioOk: bool)
    requires Inv(s) && Listing(s.dirs, env.order)
    requires DataResult(s, cfg, id, bytes, line, env, ioOk) == QuotaExhausted
    ensures var dirs := RoomMade(s, cfg, |bytes| + line, env).dirs;
            forall other | other in dirs :: !Eligible(dirs[other])
  {
    hide Sweep, Unpinned;
    var required := |bytes| + line;
    var s1 := RoomMade(s, cfg, required, env);
    FreedKeepsInv(s, env, SatSub(cfg.totalBytes, required));
    UnpinnedWithout(s1.dirs, id);
    assert Weight(s1.dirs[id]) > 0;
  }

  /** Accepted data stays within the quota. */
  lemma AcceptedWithinQuota(s: Store, cfg: Config, id: Id, bytes: Bytes, line: nat, env: Env, ioOk: bool)
    requires Inv(s) && Listing(s.dirs, env.order)
    requires DataResult(s, cfg, id, bytes, line, env, ioOk) == Accepted
    ensures Unpinned(Stored(s, cfg, id, bytes, line, env, ioOk).dirs) <= cfg.totalBytes
  {
    DataKeepsCounter(s, cfg, id, bytes, line, env, ioOk);
  }

  // ---------------------------------------------------------------------
  // The implementation.

  class Archive {
    var dirs: Dirs
    var sessions: map<Id, Active>
    var archiveBytes: nat
    const config: Config

    function S(): Store
      reads this
    {
      Store(dirs, sessions, archiveBytes)
    }

    constructor (config: Config)
      ensures this.config == config && S() == Store(map[], map[], 0) && Inv(S())
    {
      this.config := config;
      dirs, sessions, archiveBytes := map[], map[], 0;
    }

    /** `unpinned_archive_size`, over any listing of the directories. */
    method UnpinnedArchiveSize(order: seq<Id>) returns (total: nat)
      requires Listing(dirs, order)
      ensures total == Unpinned(dirs)
    {
      total := 0;
      for i := 0 to |order|
        invariant total == ListedWeight(dirs, order[..i])
      {
        assert order[..i + 1][..i] == order[..i];
        var d := dirs[order[i]];
        if !d.pinned {
          total := total + Size(d);
        }
      }
      assert order[..|order|] == order;
      ListedIsUnpinned(dirs, order);
    }

    method EnforceRetention(env: Env, quota: nat) returns (freed: nat)
      requires Listing(dirs, env.order)
      modifies this`dirs
      ensures var r := Sweep(old(dirs), env.order, Unpinned(old(dirs)), quota, env.expired);
              dirs == r.dirs && freed == r.freed
    {
      hide Unpinned, Size, Listing;
      var total: nat := UnpinnedArchiveSize(env.order);
      ListingCovers(dirs, env.order);
      freed := 0;
      ghost var whole := Sweep(dirs, env.order, total, quota, env.expired);
      assert env.order[0..] == env.order;
      for i := 0 to |env.order|
        invariant Distinct(env.order[i..]) && forall id | id in env.order[i..] :: id in dirs
        invariant var r := Sweep(dirs, env.order[i..], total, quota, env.expired);
                  whole.dirs == r.dirs && whole.freed == freed + r.freed
      {
        var id := env.order[i];
        assert env.order[i..][0] == id && env.order[i..][1..] == env.order[i + 1..];
        var d := dirs[id];
        if d.manifest.status == Recording || d.pinned {
          continue;
        }
        if total <= quota && id !in env.expired {
          continue;
        }
        var size := Size(d);
        dirs := dirs - {id};
        total := SatSub(total, size);
        freed := freed + size;
      }
    }

    method SubtractAtomic(amount: nat)
      modifies this`archiveBytes
      ensures archiveBytes == SatSub(old(archiveBytes), amount)
    {
      archiveBytes := SatSub(archiveBytes, amount);
    }

    method Start(id: Id, startedAt: nat, manifestSize: nat, env: Env, ioOk: bool) returns (ok: bool)
      requires Inv(S()) && Listing(dirs, env.order) && id !in dirs && manifestSize > 0
      modifies this
      ensures Inv(S()) && ok == ioOk
      ensures S() == Started(old(S()), config, id, startedAt, manifestSize, env, ioOk)
    {
      hide Inv, Sweep, Unpinned;
      StartKeepsCounter(S(), config, id, startedAt, manifestSize, env, ioOk);
      var freed := EnforceRetention(env, config.totalBytes);
      SubtractAtomic(freed);
      if !ioOk {
        return false;
      }
      dirs := dirs[id := FreshDir(startedAt, manifestSize)];
      sessions := sessions[id := FRESH];
      archiveBytes := archiveBytes + Size(dirs[id]);
      return true;
    }

    method WriteData(id: Id, bytes: Bytes, line: nat, env: Env, ioOk: bool) returns (code: DataCode)
      requires Inv(S()) && Listing(dirs, env.order)
      modifies this
      ensures Inv(S()) && code == DataResult(old(S()), config, id, bytes, line, env, ioOk)
      ensures S() == Stored(old(S()), config, id, bytes, line, env, ioOk)
    {
      hide Inv, Listing, RoomMade, Size, Written, Advanced;
      DataKeepsCounter(S(), config, id, bytes, line, env, ioOk);
      if id !in sessions {
        return Ignored;
      }
      RecordingIsKept(S(), config, id, |bytes| + line, env);
      var required := |bytes| + line;
      var roomy := MakeRoom(required, env);
      if !roomy {
        sessions := sessions[id := sessions[id].(failed := true)];
        return QuotaExhausted;
      }
      if !ioOk {
        sessions := sessions[id := sessions[id].(failed := true)];
        return IoFailed;
      }
      WriteRecord(id, bytes, line);
      archiveBytes := archiveBytes + required;
      return Accepted;
    }

    /** The quota check of `write_data`. */
    method MakeRoom(required: nat, env: Env) returns (roomy: bool)
      requires Inv(S()) && Listing(dirs, env.order)
      modifies this`dirs, this`archiveBytes
      ensures S() == RoomMade(old(S()), config, required, env)
      ensures roomy <==> archiveBytes + required <= config.totalBytes
    {
      hide Sweep, Unpinned;
      var writtenTotal := archiveBytes;
      if writtenTotal + required > config.totalBytes {
        var freed := EnforceRetention(env, SatSub(config.totalBytes, required));
        writtenTotal := SatSub(writtenTotal, freed);
        archiveBytes := writtenTotal;
        if writtenTotal + required > config.totalBytes {
          return false;
        }
      }
      return true;
    }

    /** Rotation, the raw bytes, the index line and the session's counters. */
    method WriteRecord(id: Id, bytes: Bytes, line: nat)
      requires id in sessions && id in dirs && dirs[id].files != []
      modifies this`dirs, this`sessions
      ensures var d, active := old(dirs)[id], old(sessions)[id];
              && dirs == old(dirs)[id := d.(files := Written(d.files, active, bytes, line, config.segmentBytes))]
              && sessions == old(sessions)[id := Advanced(active, |bytes|, config.segmentBytes)]
    {
      var session, files := sessions[id], dirs[id].files;
      var rotate := session.segmentBytes > 0 && session.segmentBytes + |bytes| > config.segmentBytes;
      var segment := if rotate then session.segment + 1 else session.segment;
      var offset := if rotate then 0 else session.segmentBytes;
      var entry := IndexEntry(segment, session.sequence + 1, offset, |bytes|, line);
      if rotate {
        files := files + FRESH_FILES;
        session := session.(segment := session.segment + 1, segmentBytes := 0);
      }
      var last := files[|files| - 1];
      files := files[|files| - 1 := Segment(last.raw + bytes, last.index + [entry])];
      session := session.(sequence := session.sequence + 1,
                          segmentBytes := session.segmentBytes + |bytes|,
                          bytes := session.bytes + |bytes|, records := session.records + 1);
      dirs := dirs[id := dirs[id].(files := files)];
      sessions := sessions[id := session];
    }

    method Finish(id: Id, loss: Loss, manifestSize: nat, ioOk: bool) returns (ok: bool)
      requires Inv(S()) && manifestSize > 0
      modifies this
      ensures Inv(S()) && S() == Finished(old(S()), id, loss, manifestSize, ioOk)
      ensures ok <==> id !in old(sessions) || ioOk
    {
      FinishKeepsCounter(S(), id, loss, manifestSize, ioOk);
      if id !in sessions {
        return true;
      }
      hide Unpinned;
      var session := sessions[id];
      sessions := sessions - {id};
      if !ioOk {
        return false;
      }
      var d := dirs[id];
      var complete := !loss.failed && !session.failed;
      var manifest := d.manifest.(status := if complete then Complete else Incomplete,
                                  bytes := session.bytes, records := session.records,
                                  segments := session.segment, dropped := loss.dropped);
      dirs := dirs[id := d.(manifest := manifest, manifestSize := manifestSize)];
      if manifestSize >= d.manifestSize {
        archiveBytes := archiveBytes + (manifestSize - d.manifestSize);
      } else {
        SubtractAtomic(d.manifestSize - manifestSize);
      }
      return true;
    }

    method SetPinned(id: Id, pinned: bool) returns (code: AccessCode)
      requires Inv(S())
      modifies this
      ensures Inv(S()) && code == PinCode(old(S()), id) && S() == Pinned(old(S()), id, pinned)
    {
      PinKeepsCounter(S(), id, pinned);
      if id !in dirs {
        return NotFound;
      }
      var d := dirs[id];
      if d.manifest.status == Recording {
        return StillRecording;
      }
      if pinned && !d.pinned {
        var size := Size(d);
        dirs := dirs[id := d.(pinned := true)];
        SubtractAtomic(size);
      } else if !pinned && d.pinned {
        dirs := dirs[id := d.(pinned := false)];
        archiveBytes := archiveBytes + Size(d);
      }
      return Done;
    }

    method Delete(id: Id) returns (code: AccessCode)
      requires Inv(S())
      modifies this
      ensures Inv(S()) && code == DeleteCode(old(S()), id) && S() == Deleted(old(S()), id)
    {
      DeleteKeepsCounter(S(), id);
      if id !in dirs {
        return NotFound;
      }
      if dirs[id].manifest.status == Recording {
        return StillRecording;
      }
      if dirs[id].pinned {
        return StillPinned;
      }
      var size := Size(dirs[id]);
      dirs := dirs - {id};
      SubtractAtomic(size);
      return Done;
    }
  }
}
