/** When a file may be deleted, and what the expiry thread removes from the disk. */
module FileExpiry {
  import opened Text

  datatype FileState = FsReady | FsSend | FsFailed | FsDelete | FsRemove | FsNone | FsArchive | FsStopped | FsPending

  /** aes_afp_file; created and deleted are absolute seconds. */
  datatype FileRec = FileRec(state: FileState, removeBefore: bool, created: nat, deleted: nat, sourceDir: string)

  const TWO31 := 0x8000_0000
  const TWO32 := 0x1_0000_0000
  const TWO63 := 0x8000_0000_0000_0000
  const TWO64 := 0x1_0000_0000_0000_0000

  /** A product of two 32-bit numbers, wrapped. */
  function Int32(x: int): int {
    (x + TWO31) % TWO32 - TWO31
  }

  /** An unsigned difference of 64 bits read as a signed number. */
  function Int64(x: int): int {
    (x + TWO63) % TWO64 - TWO63
  }

  function Base(f: FileRec): nat {
    if f.removeBefore then f.created else f.deleted
  }

  /** calcRemDelay */
  function RemDelay(f: FileRec, delay: int, now: nat): int {
    if f.state != FsDelete && !f.removeBefore then Int32(delay * 60)
    else if delay == -1 then -1
    else
      var left := Int64(Int32(delay * 60) + Base(f) - now);
      if left < 0 then 0 else left
  }

  /** readyForDelete */
  predicate ReadyForDelete(f: FileRec, delay: int, now: nat) {
    (f.state == FsDelete || f.state == FsRemove) && (delay == 0 || RemDelay(f, delay, now) == 0)
  }

  /** Clock readings far from the 64-bit limit. */
  predicate Clock(t: nat) {
    t < 0x4000_0000_0000_0000
  }

  lemma NoWrap64(x: int)
    requires -TWO63 <= x < TWO63
    ensures Int64(x) == x
  {
  }

  /** The delay 0 deletes at once and -1 never; otherwise the clock that counts must have run 60 * delay
      seconds as a 32-bit product, and a file being removed has no clock unless it counts from creation. */
  lemma ReadyExactly(f: FileRec, delay: int, now: nat)
    requires Clock(f.created) && Clock(f.deleted) && Clock(now)
    ensures ReadyForDelete(f, delay, now) <==>
            && (f.state == FsDelete || f.state == FsRemove)
            && (delay == 0 ||
                (if f.state == FsDelete || f.removeBefore
                 then delay != -1 && Int32(delay * 60) + (if f.removeBefore then f.created else f.deleted) <= now
                 else Int32(delay * 60) == 0))
  {
    var p := Int32(delay * 60);
    assert -TWO31 <= p < TWO31;
    NoWrap64(p + Base(f) - now);
  }

  /** The largest delay whose seconds fit 32 bits. */
  const LongestDelay := 35791394

  lemma InRange(delay: int)
    requires 0 <= delay <= LongestDelay
    ensures Int32(delay * 60) == delay * 60
  {
  }

  /** The wrapped product is the 32-bit number that differs by a multiple of 2^32. */
  lemma Int32Means(x: int) returns (k: int)
    ensures Int32(x) == x + k * 4294967296 && -2147483648 <= Int32(x) <= 2147483647
  {
    k := -((x + TWO31) / TWO32);
  }

  /** A sent file whose delay fits: ready when so many minutes have passed since it was created, if the queue
      removes before sending, or since it was sent. */
  lemma ReadyInRange(f: FileRec, delay: int, now: nat)
    requires Clock(f.created) && Clock(f.deleted) && Clock(now)
    requires f.state == FsDelete && 0 < delay <= 35791394
    ensures ReadyForDelete(f, delay, now) <==> (if f.removeBefore then f.created else f.deleted) + 60 * delay <= now
  {
    ReadyExactly(f, delay, now);
    InRange(delay);
  }

  lemma Wraps(delay: int)
    requires LongestDelay < delay < TWO31
    ensures Int32(delay * 60) < delay * 60
  {
  }

  /** A record and a clock that has not gone back behind it. */
  predicate Reads(f: FileRec, now: nat) {
    Clock(f.created) && Clock(f.deleted) && Clock(now) && (if f.removeBefore then f.created else f.deleted) <= now
  }

  /** The delay, in minutes, has passed. */
  predicate InTime(f: FileRec, delay: int, now: nat) {
    delay != -1 && delay * 60 + (if f.removeBefore then f.created else f.deleted) <= now
  }

  /** A file is never ready before its time, exactly for the delays whose seconds fit. */
  lemma NeverEarlyExactly(delay: int)
    requires -1 <= delay < TWO31
    ensures delay <= LongestDelay <==>
            forall f: FileRec, now: nat :: Reads(f, now) && ReadyForDelete(f, delay, now) ==> InTime(f, delay, now)
  {
    if delay <= LongestDelay {
      forall f: FileRec, now: nat | Reads(f, now) && ReadyForDelete(f, delay, now) ensures InTime(f, delay, now) {
        NotEarly(f, delay, now);
      }
    } else {
      var now := delay * 60 + TWO31 - 1;
      var f := FileRec(FsDelete, false, 0, TWO31, "");
      Wraps(delay);
      ReadyExactly(f, delay, now);
      assert Reads(f, now) && ReadyForDelete(f, delay, now) && !InTime(f, delay, now);
    }
  }

  lemma NotEarly(f: FileRec, delay: int, now: nat)
    requires -1 <= delay <= LongestDelay && Reads(f, now) && ReadyForDelete(f, delay, now)
    ensures InTime(f, delay, now)
  {
    ReadyExactly(f, delay, now);
    if delay >= 0 { InRange(delay); }
  }

  // ---------------------------------------------------------------- the transfer queues and the delete map

  datatype Listed = Listed(name: string, rec: FileRec)

  /** A transfer queue: where its status files are, SOURCEDIRECTORY, REMOVEDELAY and the files by time. */
  datatype Queue = Queue(statusDir: string, sourceDir: string, delay: int, files: seq<Listed>)

  /** An element of deleteMap_: the source file, and the record, delay and time that put it there. */
  datatype Item = Item(source: string, rec: FileRec, delay: int, at: nat)

  type DeleteMap = map<string, Item>

  function StatusPath(q: Queue, name: string): string {
    q.statusDir + "/" + name
  }

  /** The file's own source directory, that of the queue when it has none. */
  function OwnDir(q: Queue, f: Listed): string {
    if f.rec.sourceDir == "" then q.sourceDir else f.rec.sourceDir
  }

  function SourcePath(q: Queue, f: Listed): string {
    OwnDir(q, f) + "/" + f.name
  }

  predicate Ready(q: Queue, f: Listed, now: nat) {
    ReadyForDelete(f.rec, q.delay, now)
  }

  /** One file of deleteFiles: an expired one goes to the map unless its path is there already, any other
      takes its path out of the map. */
  function MapAfter(q: Queue, f: Listed, dm: DeleteMap, now: nat): DeleteMap {
    var path := StatusPath(q, f.name);
    if !Ready(q, f, now) then dm - {path}
    else if path in dm then dm
    else dm[path := Item(SourcePath(q, f), f.rec, q.delay, now)]
  }

  function MapAfterAll(q: Queue, files: seq<Listed>, dm: DeleteMap, now: nat): DeleteMap
    decreases |files|
  {
    if files == [] then dm else MapAfterAll(q, files[1..], MapAfter(q, files[0], dm, now), now)
  }

  function Kept(q: Queue, files: seq<Listed>, now: nat): seq<Listed> {
    if files == [] then []
    else (if Ready(q, files[0], now) then [] else [files[0]]) + Kept(q, files[1..], now)
  }

  function QueueAfter(q: Queue, now: nat): Queue {
    q.(files := Kept(q, q.files, now))
  }

  function SweepMap(qs: seq<Queue>, dm: DeleteMap, now: nat): DeleteMap
    decreases |qs|
  {
    if qs == [] then dm else SweepMap(qs[1..], MapAfterAll(qs[0], qs[0].files, dm, now), now)
  }

  function SweepQueues(qs: seq<Queue>, now: nat): (r: seq<Queue>)
    ensures |r| == |qs|
  {
    seq(|qs|, i requires 0 <= i < |qs| => QueueAfter(qs[i], now))
  }

  predicate Lists(q: Queue, name: string) {
    exists f :: f in q.files && f.name == name
  }

  /** A queue with the source's directory lists its name. */
  predicate Shared(qs: seq<Queue>, source: string) {
    exists q :: q in qs && q.sourceDir == DirName(source) && Lists(q, BaseName(source))
  }

  /** The source files removed in a round; gone: the status files that could be removed. */
  function Unlinked(qs: seq<Queue>, dm: DeleteMap, gone: set<string>): set<Item> {
    set p | p in dm && p in gone && !Shared(qs, dm[p].source) :: dm[p]
  }

  function Rest(dm: DeleteMap, gone: set<string>): DeleteMap {
    dm - gone
  }

  // ---------------------------------------------------------------- what a round removes

  /** Status directories are one per queue, file names are plain. */
  predicate Shaped(qs: seq<Queue>) {
    && (forall i, j :: 0 <= i < j < |qs| ==> qs[i].statusDir != qs[j].statusDir)
    && (forall q, f :: q in qs && f in q.files ==> '/' !in f.name)
    && (forall q :: q in qs ==> DistinctNames(q.files))
  }

  predicate DistinctNames(files: seq<Listed>) {
    forall i, j :: 0 <= i < j < |files| ==> files[i].name != files[j].name
  }

  /** What put each item into the map had expired by then. */
  predicate Justified(dm: DeleteMap, now: nat) {
    forall p :: p in dm ==> dm[p].at <= now && ReadyForDelete(dm[p].rec, dm[p].delay, dm[p].at)
  }

  lemma {:induction false} JustifiedAll(q: Queue, files: seq<Listed>, dm: DeleteMap, now: nat)
    requires Justified(dm, now)
    ensures Justified(MapAfterAll(q, files, dm, now), now)
    decreases |files|
  {
    hide ReadyForDelete, StatusPath, SourcePath;
    if files != [] { JustifiedAll(q, files[1..], MapAfter(q, files[0], dm, now), now); }
  }

  lemma {:induction false} JustifiedSweep(qs: seq<Queue>, dm: DeleteMap, now: nat)
    requires Justified(dm, now)
    ensures Justified(SweepMap(qs, dm, now), now)
    decreases |qs|
  {
    if qs != [] {
      JustifiedAll(qs[0], qs[0].files, dm, now);
      JustifiedSweep(qs[1..], MapAfterAll(qs[0], qs[0].files, dm, now), now);
    }
  }

  lemma {:induction false} KeptIs(q: Queue, files: seq<Listed>, now: nat)
    ensures forall f :: f in Kept(q, files, now) <==> f in files && !Ready(q, f, now)
    decreases |files|
  {
    hide Ready;
    if files != [] {
      assert files == [files[0]] + files[1..];
      KeptIs(q, files[1..], now);
    }
  }

  /** A path is that of one queue and one name. */
  lemma PathsDiffer(q: Queue, p: Queue, name: string, other: string)
    requires '/' !in name && '/' !in other && (q.statusDir != p.statusDir || name != other)
    ensures StatusPath(q, name) != StatusPath(p, other)
  {
    SplitPath(q.statusDir, name);
    SplitPath(p.statusDir, other);
  }

  predicate SameAt(a: DeleteMap, b: DeleteMap, path: string) {
    (path in a <==> path in b) && (path in a && path in b ==> a[path] == b[path])
  }

  /** Files of other names leave a path alone. */
  lemma {:induction false} PathUntouched(q: Queue, files: seq<Listed>, dm: DeleteMap, now: nat, path: string)
    requires forall f :: f in files ==> StatusPath(q, f.name) != path
    ensures SameAt(MapAfterAll(q, files, dm, now), dm, path)
    decreases |files|
  {
    hide StatusPath, Ready, SourcePath;
    if files != [] {
      assert files[0] in files;
      PathUntouched(q, files[1..], MapAfter(q, files[0], dm, now), now, path);
    }
  }

  /** After its queue was swept the path of a file is in the map exactly when the file had expired. */
  lemma {:induction false} PathSettled(q: Queue, files: seq<Listed>, dm: DeleteMap, now: nat, k: nat)
    requires k < |files| && DistinctNames(files) && forall f :: f in files ==> '/' !in f.name
    ensures StatusPath(q, files[k].name) in MapAfterAll(q, files, dm, now) <==> Ready(q, files[k], now)
    decreases |files|
  {
    var path, next, rest := StatusPath(q, files[k].name), MapAfter(q, files[0], dm, now), files[1..];
    assert files[0] in files && files[k] in files;
    assert forall f :: f in rest ==> f in files;
    if k == 0 {
      forall f | f in rest ensures StatusPath(q, f.name) != path {
        var j :| 0 <= j < |rest| && rest[j] == f;
        PathsDiffer(q, q, files[j + 1].name, files[0].name);
      }
      hide StatusPath, Ready, SourcePath;
      PathUntouched(q, rest, next, now, path);
    } else {
      hide StatusPath, Ready, SourcePath;
      PathSettled(q, rest, next, now, k - 1);
    }
  }

  lemma {:induction false} SweepUntouched(qs: seq<Queue>, dm: DeleteMap, now: nat, path: string)
    requires forall q, f :: q in qs && f in q.files ==> StatusPath(q, f.name) != path
    ensures SameAt(SweepMap(qs, dm, now), dm, path)
    decreases |qs|
  {
    hide StatusPath;
    if qs != [] {
      assert qs[0] in qs;
      PathUntouched(qs[0], qs[0].files, dm, now, path);
      SweepUntouched(qs[1..], MapAfterAll(qs[0], qs[0].files, dm, now), now, path);
    }
  }

  /** After a sweep the delete map has the path of every expired file and of no other listed file: no file is
      lost between the listing and the map, and no status file of a listed file will be removed. */
  lemma {:induction false} SweepSettles(qs: seq<Queue>, dm: DeleteMap, now: nat, i: nat, k: nat)
    requires Shaped(qs) && i < |qs| && k < |qs[i].files|
    ensures var q, f := qs[i], qs[i].files[k];
            && (StatusPath(q, f.name) in SweepMap(qs, dm, now) <==> Ready(q, f, now))
            && (f in QueueAfter(q, now).files <==> !Ready(q, f, now))
    decreases |qs|
  {
    var q, f := qs[i], qs[i].files[k];
    KeptIs(q, q.files, now);
    var rest, next := qs[1..], MapAfterAll(qs[0], qs[0].files, dm, now);
    assert qs[i] in qs && qs[0] in qs && f in q.files;
    assert forall p :: p in rest ==> p in qs;
    if i == 0 {
      PathSettled(q, q.files, dm, now, k);
      forall p, g | p in rest && g in p.files ensures StatusPath(p, g.name) != StatusPath(q, f.name) {
        var j :| 0 <= j < |rest| && rest[j] == p;
        assert qs[j + 1].statusDir != q.statusDir;
        PathsDiffer(p, q, g.name, f.name);
      }
      hide StatusPath, Ready;
      SweepUntouched(rest, next, now, StatusPath(q, f.name));
    } else {
      hide StatusPath, Ready;
      SweepSettles(rest, next, now, i - 1, k);
    }
  }

  /** What the map has for an expired file: what it had, or the file as it is now. */
  function ItemFor(q: Queue, f: Listed, dm: DeleteMap, now: nat): Item {
    var path := q.statusDir + "/" + f.name;
    if path in dm then dm[path]
    else Item((if f.rec.sourceDir == "" then q.sourceDir else f.rec.sourceDir) + "/" + f.name, f.rec, q.delay, now)
  }

  lemma {:induction false} ItemSettled(q: Queue, files: seq<Listed>, dm: DeleteMap, now: nat, k: nat)
    requires k < |files| && DistinctNames(files) && forall f :: f in files ==> '/' !in f.name
    requires Ready(q, files[k], now)
    ensures var path, after := StatusPath(q, files[k].name), MapAfterAll(q, files, dm, now);
            path in after && after[path] == ItemFor(q, files[k], dm, now)
    decreases |files|
  {
    var path, next, rest := StatusPath(q, files[k].name), MapAfter(q, files[0], dm, now), files[1..];
    assert files[0] in files && files[k] in files;
    assert forall f :: f in rest ==> f in files;
    if k == 0 {
      forall f | f in rest ensures StatusPath(q, f.name) != path {
        var j :| 0 <= j < |rest| && rest[j] == f;
        PathsDiffer(q, q, files[j + 1].name, files[0].name);
      }
      assert path in next && next[path] == ItemFor(q, files[0], dm, now);
      hide StatusPath, Ready, SourcePath, ItemFor;
      PathUntouched(q, rest, next, now, path);
    } else {
      PathsDiffer(q, q, files[0].name, files[k].name);
      assert SameAt(next, dm, path);
      assert ItemFor(q, files[k], next, now) == ItemFor(q, files[k], dm, now);
      hide StatusPath, Ready, SourcePath, ItemFor;
      ItemSettled(q, rest, next, now, k - 1);
    }
  }

  lemma {:induction false} ItemSwept(qs: seq<Queue>, dm: DeleteMap, now: nat, i: nat, k: nat)
    requires Shaped(qs) && i < |qs| && k < |qs[i].files| && Ready(qs[i], qs[i].files[k], now)
    ensures var path, after := StatusPath(qs[i], qs[i].files[k].name), SweepMap(qs, dm, now);
            path in after && after[path] == ItemFor(qs[i], qs[i].files[k], dm, now)
    decreases |qs|
  {
    var q, f := qs[i], qs[i].files[k];
    var path, rest, next := StatusPath(q, f.name), qs[1..], MapAfterAll(qs[0], qs[0].files, dm, now);
    assert qs[i] in qs && qs[0] in qs && f in q.files;
    assert forall p :: p in rest ==> p in qs;
    if i == 0 {
      ItemSettled(q, q.files, dm, now, k);
      forall p, g | p in rest && g in p.files ensures StatusPath(p, g.name) != path {
        var j :| 0 <= j < |rest| && rest[j] == p;
        assert qs[j + 1].statusDir != q.statusDir;
        PathsDiffer(p, q, g.name, f.name);
      }
      hide StatusPath, Ready, ItemFor;
      SweepUntouched(rest, next, now, path);
    } else {
      forall g | g in qs[0].files ensures StatusPath(qs[0], g.name) != path {
        PathsDiffer(qs[0], q, g.name, f.name);
      }
      PathUntouched(qs[0], qs[0].files, dm, now, path);
      SameItem(q, f, next, dm, now);
      hide StatusPath, Ready, ItemFor;
      ItemSwept(rest, next, now, i - 1, k);
    }
  }

  lemma SameItem(q: Queue, f: Listed, a: DeleteMap, b: DeleteMap, now: nat)
    requires SameAt(a, b, StatusPath(q, f.name))
    ensures ItemFor(q, f, a, now) == ItemFor(q, f, b, now)
  {
  }

  // ---------------------------------------------------------------- runs

  /** Either anything happens to the listings, or the thread does a round at a time of the clock. */
  datatype Step = Change(qs: seq<Queue>) | Round(now: nat, gone: set<string>)

  /** One removal of a source file: the item, when, and the listings at that moment. */
  datatype Removal = Removal(item: Item, at: nat, qs: seq<Queue>)

  datatype Store = Store(qs: seq<Queue>, dm: DeleteMap, clock: nat, removed: set<Removal>)

  predicate Possible(s: Store, step: Step) {
    match step
    case Change(qs) => Shaped(qs)
    case Round(now, _) => s.clock <= now
  }

  function Next(s: Store, step: Step): Store {
    match step
    case Change(qs) => s.(qs := qs)
    case Round(now, gone) =>
      var qs, dm := SweepQueues(s.qs, now), SweepMap(s.qs, s.dm, now);
      Store(qs, Rest(dm, gone), now,
            s.removed + set item | item in Unlinked(qs, dm, gone) :: Removal(item, now, qs))
  }

  predicate PossibleRun(s: Store, steps: seq<Step>)
    decreases |steps|
  {
    steps == [] || (Possible(s, steps[0]) && PossibleRun(Next(s, steps[0]), steps[1..]))
  }

  function After(s: Store, steps: seq<Step>): Store
    decreases |steps|
  {
    if steps == [] then s else After(Next(s, steps[0]), steps[1..])
  }

  /** The source is listed nowhere with its directory, and had expired. */
  predicate Rightful(r: Removal) {
    && !Shared(r.qs, r.item.source) && r.item.at <= r.at
    && ReadyForDelete(r.item.rec, r.item.delay, r.item.at)
  }

  predicate Safe(s: Store) {
    Justified(s.dm, s.clock) && forall r :: r in s.removed ==> Rightful(r)
  }

  lemma RoundSafe(s: Store, now: nat, gone: set<string>)
    requires Safe(s) && s.clock <= now
    ensures Safe(Next(s, Round(now, gone)))
  {
    assert Justified(s.dm, now);
    JustifiedSweep(s.qs, s.dm, now);
    var qs, dm := SweepQueues(s.qs, now), SweepMap(s.qs, s.dm, now);
    hide Shared, ReadyForDelete, SweepMap, SweepQueues;
    var t := Next(s, Round(now, gone));
    forall r | r in t.removed ensures Rightful(r) {
      if r !in s.removed {
        var item :| item in Unlinked(qs, dm, gone) && r == Removal(item, now, qs);
        var p :| p in dm && p in gone && !Shared(qs, dm[p].source) && item == dm[p];
      }
    }
  }

  lemma {:induction false} RunSafe(s: Store, steps: seq<Step>)
    requires Safe(s) && PossibleRun(s, steps)
    ensures Safe(After(s, steps))
    decreases |steps|
  {
    hide Safe, Next;
    if steps != [] {
      if steps[0].Round? {
        RoundSafe(s, steps[0].now, steps[0].gone);
      } else {
        ChangeSafe(s, steps[0].qs);
      }
      RunSafe(Next(s, steps[0]), steps[1..]);
    }
  }

  lemma ChangeSafe(s: Store, qs: seq<Queue>)
    requires Safe(s)
    ensures Safe(Next(s, Change(qs)))
  {
  }

  /** In every run a source file is removed only when no queue with its directory lists its name, and only for
      an item that had been ready for deletion, so (NeverEarlyExactly) at its time and never for delay -1. */
  lemma SharedSourceKept(qs: seq<Queue>, steps: seq<Step>, r: Removal)
    requires PossibleRun(Store(qs, map[], 0, {}), steps) && r in After(Store(qs, map[], 0, {}), steps).removed
    requires -1 <= r.item.delay <= LongestDelay && Reads(r.item.rec, r.item.at)
    ensures forall q :: q in r.qs && q.sourceDir == DirName(r.item.source) ==> !Lists(q, BaseName(r.item.source))
    ensures InTime(r.item.rec, r.item.delay, r.item.at) && r.item.at <= r.at
  {
    RunSafe(Store(qs, map[], 0, {}), steps);
    assert Rightful(r);
    NotEarly(r.item.rec, r.item.delay, r.item.at);
  }

  // ---------------------------------------------------------------- sources of listed files

  /** The source of a listed file. */
  predicate InUse(qs: seq<Queue>, source: string) {
    exists q, f :: q in qs && f in q.files && SourcePath(q, f) == source
  }

  /** For each listed file a queue with the file's own source directory lists its name. */
  predicate Covered(qs: seq<Queue>) {
    forall q, f :: q in qs && f in q.files ==> exists p :: p in qs && p.sourceDir == OwnDir(q, f) && Lists(p, f.name)
  }

  predicate Spares(qs: seq<Queue>, dm: DeleteMap, gone: set<string>) {
    forall item :: item in Unlinked(qs, dm, gone) ==> !InUse(qs, item.source)
  }

  lemma SharedSource(qs: seq<Queue>, q: Queue, f: Listed)
    requires '/' !in f.name
    ensures Shared(qs, SourcePath(q, f)) <==> exists p :: p in qs && p.sourceDir == OwnDir(q, f) && Lists(p, f.name)
  {
    SplitPath(OwnDir(q, f), f.name);
  }

  /** The search looks at the source directories of the queues only: whatever is in the map, it spares the sources
      of all listed files exactly when each listed file is covered. */
  lemma SourcesSparedExactly(qs: seq<Queue>)
    requires Shaped(qs)
    ensures (forall dm, gone :: Spares(qs, dm, gone)) <==> Covered(qs)
  {
    hide OwnDir, Lists;
    if Covered(qs) {
      forall dm, gone ensures Spares(qs, dm, gone) {
        CoveredSpares(qs, dm, gone);
      }
    } else {
      var q, f :| q in qs && f in q.files && !exists p :: p in qs && p.sourceDir == OwnDir(q, f) && Lists(p, f.name);
      SharedSource(qs, q, f);
      Loses(qs, q, f);
    }
  }

  lemma CoveredSpares(qs: seq<Queue>, dm: DeleteMap, gone: set<string>)
    requires Shaped(qs) && Covered(qs)
    ensures Spares(qs, dm, gone)
  {
    hide OwnDir, Lists;
    forall item | item in Unlinked(qs, dm, gone) ensures !InUse(qs, item.source) {
      if InUse(qs, item.source) {
        var q, f :| q in qs && f in q.files && SourcePath(q, f) == item.source;
        SharedSource(qs, q, f);
        assert false;
      }
    }
  }

  /** A listed file that has expired. Once its status file is gone its source is removed, unless a queue with the
      directory of the source still lists the name; while the status file stays, the source stays in the map. A
      source is the file's name in its own directory, or in that of the queue if it has none. */
  lemma ExpiredRemoved(s: Store, i: nat, k: nat, now: nat, gone: set<string>)
    requires Shaped(s.qs) && i < |s.qs| && k < |s.qs[i].files|
    requires ReadyForDelete(s.qs[i].files[k].rec, s.qs[i].delay, now)
    requires s.qs[i].statusDir + "/" + s.qs[i].files[k].name !in s.dm
    ensures var q, f, t := s.qs[i], s.qs[i].files[k], Next(s, Round(now, gone));
            var path, dir := q.statusDir + "/" + f.name, if f.rec.sourceDir == "" then q.sourceDir else f.rec.sourceDir;
            var item := Item(dir + "/" + f.name, f.rec, q.delay, now);
            && f !in t.qs[i].files
            && (path !in gone ==> path in t.dm && t.dm[path] == item)
            && (path in gone ==>
                  && path !in t.dm
                  && ((exists p, g :: p in t.qs && p.sourceDir == dir && g in p.files && g.name == f.name) ||
                      Removal(item, now, t.qs) in t.removed))
  {
    var q, f, t := s.qs[i], s.qs[i].files[k], Next(s, Round(now, gone));
    var path, item := StatusPath(q, f.name), ItemFor(q, f, s.dm, now);
    ItemSwept(s.qs, s.dm, now, i, k);
    SweepSettles(s.qs, s.dm, now, i, k);
    assert q in s.qs && f in q.files;
    SharedSource(t.qs, q, f);
    hide ReadyForDelete, SweepMap, Shared, Shaped;
    if path in gone && !Shared(t.qs, SourcePath(q, f)) {
      var _ := RoundRemoves(s, now, gone, path);
    }
  }

  lemma Loses(qs: seq<Queue>, q: Queue, f: Listed)
    requires q in qs && f in q.files && !Shared(qs, SourcePath(q, f))
    ensures exists dm, gone :: !Spares(qs, dm, gone)
  {
    hide Shared, SourcePath;
    var item := Item(SourcePath(q, f), f.rec, q.delay, 0);
    var dm := map["" := item];
    assert dm[""] == item && item in Unlinked(qs, dm, {""}) && InUse(qs, item.source);
    assert !Spares(qs, dm, {""});
  }

  /** Every listed file has no source directory of its own or its queue's. */
  predicate Own(qs: seq<Queue>) {
    forall q, f :: q in qs && f in q.files ==> OwnDir(q, f) == q.sourceDir
  }

  predicate OwnSteps(steps: seq<Step>) {
    forall step :: step in steps && step.Change? ==> Own(step.qs)
  }

  predicate Keeping(s: Store) {
    Shaped(s.qs) && Own(s.qs) && forall r :: r in s.removed ==> !InUse(r.qs, r.item.source)
  }

  lemma OwnCovered(qs: seq<Queue>)
    requires Own(qs)
    ensures Covered(qs)
  {
    forall q, f | q in qs && f in q.files ensures q.sourceDir == OwnDir(q, f) && Lists(q, f.name) {
    }
  }

  lemma SweptFiles(qs: seq<Queue>, now: nat, i: nat)
    requires i < |qs|
    ensures var q := SweepQueues(qs, now)[i];
            && q.statusDir == qs[i].statusDir && q.sourceDir == qs[i].sourceDir
            && forall f :: f in q.files ==> f in qs[i].files
  {
    KeptIs(qs[i], qs[i].files, now);
  }

  lemma {:induction false} KeptDistinct(q: Queue, files: seq<Listed>, now: nat)
    requires DistinctNames(files)
    ensures DistinctNames(Kept(q, files, now))
    decreases |files|
  {
    hide Ready;
    if files != [] {
      var rest := Kept(q, files[1..], now);
      KeptDistinct(q, files[1..], now);
      KeptIs(q, files[1..], now);
      forall f | f in rest ensures f.name != files[0].name {
        var j :| 0 <= j < |files[1..]| && files[1..][j] == f;
        assert files[j + 1] == f;
      }
    }
  }

  /** A sweep keeps the shape of the listings and the own directories. */
  lemma SweptOwn(qs: seq<Queue>, now: nat)
    requires Shaped(qs) && Own(qs)
    ensures Shaped(SweepQueues(qs, now)) && Own(SweepQueues(qs, now))
  {
    hide DistinctNames, OwnDir, Ready;
    var ts := SweepQueues(qs, now);
    forall i | 0 <= i < |ts|
      ensures ts[i].statusDir == qs[i].statusDir && DistinctNames(ts[i].files)
      ensures forall f :: f in ts[i].files ==> '/' !in f.name && OwnDir(ts[i], f) == ts[i].sourceDir
    {
      SweptFiles(qs, now, i);
      assert qs[i] in qs;
      KeptDistinct(qs[i], qs[i].files, now);
      forall f | f in ts[i].files ensures OwnDir(ts[i], f) == OwnDir(qs[i], f) { SameDir(ts[i], qs[i], f); }
    }
    forall q | q in ts ensures exists i :: 0 <= i < |ts| && ts[i] == q {
    }
  }

  lemma SameDir(p: Queue, q: Queue, f: Listed)
    requires p.sourceDir == q.sourceDir
    ensures OwnDir(p, f) == OwnDir(q, f)
  {
  }

  lemma {:induction false} RunKeeps(s: Store, steps: seq<Step>)
    requires Keeping(s) && PossibleRun(s, steps) && OwnSteps(steps)
    ensures Keeping(After(s, steps))
    decreases |steps|
  {
    hide Shaped, Own, InUse, Unlinked, Shared, SweepMap, SweepQueues;
    if steps != [] {
      assert steps[0] in steps && OwnSteps(steps[1..]);
      var t := Next(s, steps[0]);
      if steps[0].Round? {
        var now, gone := steps[0].now, steps[0].gone;
        SweptOwn(s.qs, now);
        OwnCovered(t.qs);
        CoveredSpares(t.qs, SweepMap(s.qs, s.dm, now), gone);
      }
      RunKeeps(t, steps[1..]);
    }
  }

  /** In every run of such listings no source of a listed file is removed. */
  lemma ListedSourceKept(qs: seq<Queue>, steps: seq<Step>, r: Removal)
    requires Shaped(qs) && Own(qs) && OwnSteps(steps) && PossibleRun(Store(qs, map[], 0, {}), steps)
    requires r in After(Store(qs, map[], 0, {}), steps).removed
    ensures !InUse(r.qs, r.item.source)
  {
    RunKeeps(Store(qs, map[], 0, {}), steps);
  }

  /** Two queues list a file of a third directory: when it expires in the first, the second loses it. */
  lemma ForeignSourceLost(p: Queue, q: Queue, f: Listed, g: Listed, now: nat)
    requires Shaped([p, q]) && p.files == [f] && q.files == [g] && f.name == g.name && OwnDir(p, f) == OwnDir(q, g)
    requires OwnDir(p, f) != p.sourceDir && OwnDir(q, g) != q.sourceDir && Ready(p, f, now) && !Ready(q, g, now)
    ensures var s := Store([p, q], map[], 0, {});
            var t := After(s, [Round(now, {StatusPath(p, f.name)})]);
            && PossibleRun(s, [Round(now, {StatusPath(p, f.name)})])
            && exists r :: r in t.removed && InUse(r.qs, r.item.source)
  {
    var qs, path := [p, q], StatusPath(p, f.name);
    var s, ts := Store(qs, map[], 0, {}), SweepQueues(qs, now);
    ForeignItem(p, q, f, g, now);
    KeptIs(q, q.files, now);
    hide Ready, SweepMap, StatusPath, Shared;
    var r := RoundRemoves(s, now, {path}, path);
    OneRound(s, now, {path});
    assert ts[1] in ts && g in ts[1].files;
    assert SourcePath(ts[1], g) == r.item.source;
    assert InUse(r.qs, r.item.source);
  }

  lemma RoundRemoves(s: Store, now: nat, gone: set<string>, path: string) returns (r: Removal)
    requires var dm := SweepMap(s.qs, s.dm, now);
             path in dm && path in gone && !Shared(SweepQueues(s.qs, now), dm[path].source)
    ensures r == Removal(SweepMap(s.qs, s.dm, now)[path], now, SweepQueues(s.qs, now))
    ensures r in Next(s, Round(now, gone)).removed
  {
    hide SweepMap, SweepQueues, Shared;
    var ts, dm := SweepQueues(s.qs, now), SweepMap(s.qs, s.dm, now);
    assert dm[path] in Unlinked(ts, dm, gone);
    r := Removal(dm[path], now, ts);
  }

  lemma OneRound(s: Store, now: nat, gone: set<string>)
    ensures After(s, [Round(now, gone)]) == Next(s, Round(now, gone))
    ensures PossibleRun(s, [Round(now, gone)]) <==> s.clock <= now
  {
    hide Next;
    assert [Round(now, gone)][1..] == [];
  }

  lemma ForeignItem(p: Queue, q: Queue, f: Listed, g: Listed, now: nat)
    requires Shaped([p, q]) && p.files == [f] && q.files == [g] && f.name == g.name && OwnDir(p, f) == OwnDir(q, g)
    requires OwnDir(p, f) != p.sourceDir && OwnDir(q, g) != q.sourceDir && Ready(p, f, now) && !Ready(q, g, now)
    ensures var qs, path := [p, q], StatusPath(p, f.name);
            var ts, dm := SweepQueues(qs, now), SweepMap(qs, map[], now);
            && path in dm && dm[path].source == SourcePath(p, f) == SourcePath(q, g)
            && ts[1].sourceDir == q.sourceDir && !Shared(ts, dm[path].source)
  {
    hide Ready;
    var qs := [p, q];
    assert qs[0].statusDir != qs[1].statusDir && f in p.files && g in q.files && p in qs && q in qs;
    PathsDiffer(p, q, f.name, g.name);
    SplitPath(OwnDir(p, f), f.name);
    assert qs[1..] == [q] && [q][1..] == [] && [f][1..] == [] && [g][1..] == [];
    var ts := SweepQueues(qs, now);
    assert ts[0].sourceDir == p.sourceDir && ts[1].sourceDir == q.sourceDir;
    var dm := MapAfter(p, f, map[], now);
    assert MapAfterAll(p, p.files, map[], now) == dm by { assert MapAfterAll(p, [], dm, now) == dm; }
    assert MapAfterAll(q, q.files, dm, now) == MapAfter(q, g, dm, now);
    assert SweepMap([q], dm, now) == MapAfterAll(q, q.files, dm, now);
  }
}
