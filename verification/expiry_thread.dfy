/** The expiry thread over the queue objects, proved to do the rounds of FileExpiry. */
module ExpiryThread {
  import opened Text
  import opened FileExpiry

  /** The part of aes_afp_transferqueue that deletion works on. */
  class ExpiringQueue {
    const statusDir: string
    const sourceDir: string
    var delay: int
    var files: seq<Listed>

    constructor (statusDir: string, sourceDir: string, delay: int)
      ensures this.statusDir == statusDir && this.sourceDir == sourceDir && this.delay == delay && files == []
    {
      this.statusDir, this.sourceDir, this.delay, files := statusDir, sourceDir, delay, [];
    }

    function Value(): Queue
      reads this
    {
      Queue(statusDir, sourceDir, delay, files)
    }

    /** One file of the walk: whether it expired, and the map. */
    method Settle(f: Listed, dm: DeleteMap, now: nat) returns (expired: bool, deleteMap: DeleteMap)
      ensures expired <==> Ready(Value(), f, now)
      ensures deleteMap == MapAfter(Value(), f, dm, now)
    {
      hide ReadyForDelete;
      deleteMap := dm;
      var tmpRemovePath := statusDir + "/" + f.name;
      expired := ReadyForDelete(f.rec, delay, now);
      if expired {
        if tmpRemovePath !in deleteMap {
          var sourceDirPath := if f.rec.sourceDir == "" then sourceDir else f.rec.sourceDir;
          deleteMap := deleteMap[tmpRemovePath := Item(sourceDirPath + "/" + f.name, f.rec, delay, now)];
        }
      } else {
        deleteMap := deleteMap - {tmpRemovePath};
      }
    }

    /** Files are erased while the time order is walked. */
    method DeleteFiles(dm: DeleteMap, now: nat) returns (deleteMap: DeleteMap)
      modifies this`files
      ensures Value() == QueueAfter(old(Value()), now)
      ensures deleteMap == MapAfterAll(old(Value()), old(files), dm, now)
    {
      hide Ready, MapAfter, Kept, MapAfterAll;
      deleteMap := dm;
      WalkEnd(Value(), dm, now);
      ghost var q, all, done, rest := Value(), files, [], files;
      var i := 0;
      while i < |files|
        invariant |done| == i && files == done + rest
        invariant Kept(q, all, now) == done + Kept(q, rest, now)
        invariant MapAfterAll(q, all, dm, now) == MapAfterAll(q, rest, deleteMap, now)
        decreases |rest|
      {
        SettleAgrees(Value(), q, files[i], now);
        WalkNext(q, rest, deleteMap, now);
        var expired;
        expired, deleteMap := Settle(files[i], deleteMap, now);
        DropHead(done, rest);
        if expired {
          files := files[..i] + files[i + 1..];
        } else {
          done := done + [rest[0]];
          i := i + 1;
        }
        rest := rest[1..];
      }
      WalkEnd(q, deleteMap, now);
    }

    method FindExactFile(name: string) returns (found: bool)
      ensures found <==> Lists(Value(), name)
    {
      found := false;
      for i := 0 to |files|
        invariant found <==> exists k :: 0 <= k < i && files[k].name == name
      {
        if files[i].name == name { found := true; }
      }
    }
  }

  class ExpiryDatabase {
    const queues: seq<ExpiringQueue>
    var deleteMap: DeleteMap

    constructor (queues: seq<ExpiringQueue>)
      ensures this.queues == queues && deleteMap == map[]
    {
      this.queues, deleteMap := queues, map[];
    }

    function Values(): (r: seq<Queue>)
      reads this, queues
      ensures |r| == |queues|
    {
      seq(|queues|, i requires 0 <= i < |queues| reads queues => queues[i].Value())
    }

    ghost predicate Distinct()
    {
      forall i, j :: 0 <= i < j < |queues| ==> queues[i] != queues[j]
    }

    method DeleteFiles(now: nat)
      requires Distinct()
      modifies this`deleteMap, queues
      ensures Values() == SweepQueues(old(Values()), now)
      ensures deleteMap == SweepMap(old(Values()), old(deleteMap), now)
    {
      hide QueueAfter, MapAfterAll;
      ghost var qs := Values();
      for k := 0 to |queues|
        invariant forall j :: 0 <= j < k ==> queues[j].Value() == QueueAfter(qs[j], now)
        invariant forall j :: k <= j < |queues| ==> queues[j].Value() == qs[j]
        invariant SweepMap(qs, old(deleteMap), now) == SweepMap(qs[k..], deleteMap, now)
      {
        assert qs[k..][0] == qs[k] && qs[k..][1..] == qs[k + 1..];
        deleteMap := queues[k].DeleteFiles(deleteMap, now);
      }
      assert qs[|queues|..] == [];
    }

    /** The loop that looks for another queue with the file; removed: no queue has it. */
    method DeletePhysFile(source: string) returns (removed: bool)
      ensures removed <==> !Shared(Values(), source)
    {
      var tmpSendItem, tmpAppDirectory := BaseName(source), DirName(source);
      var searchItem := false;
      for k := 0 to |queues|
        invariant !searchItem
        invariant forall j :: 0 <= j < k ==>
                    queues[j].sourceDir != tmpAppDirectory || !Lists(queues[j].Value(), tmpSendItem)
      {
        searchItem := queues[k].FindExactFile(tmpSendItem);
        if searchItem {
          if tmpAppDirectory == queues[k].sourceDir {
            assert Values()[k] == queues[k].Value() && Values()[k] in Values();
            return false;
          }
          searchItem := false;
        }
      }
      return true;
    }

    /** One round: deleteFiles, then the map; gone: the status files that could be removed. */
    method DeleteExpired(now: nat, gone: set<string>) returns (removed: set<Item>)
      requires Distinct()
      modifies this`deleteMap, queues
      ensures Values() == SweepQueues(old(Values()), now)
      ensures var dm := SweepMap(old(Values()), old(deleteMap), now);
              deleteMap == Rest(dm, gone) && removed == Unlinked(Values(), dm, gone)
    {
      hide SweepMap, SweepQueues, Shared;
      DeleteFiles(now);
      ghost var dm, qs := deleteMap, Values();
      removed := {};
      var todo := deleteMap.Keys;
      ghost var done: set<string> := {};
      while todo != {}
        invariant todo + done == dm.Keys && todo !! done && Values() == qs
        invariant deleteMap == Rest(dm, gone * done)
        invariant removed == Unlinked(qs, dm, gone * done)
        decreases todo
      {
        var path :| path in todo;
        assert path in deleteMap && deleteMap[path] == dm[path];
        if path in gone {
          var free := DeletePhysFile(deleteMap[path].source);
          UnlinkedNext(qs, dm, gone, done, path);
          if free { removed := removed + {deleteMap[path]}; }
          deleteMap := deleteMap - {path};
        } else {
          assert gone * (done + {path}) == gone * done;
        }
        todo, done := todo - {path}, done + {path};
      }
      RoundDone(qs, dm, gone, done);
    }
  }

  /** Nothing but the listing changes in a walk. */
  lemma SettleAgrees(p: Queue, q: Queue, f: Listed, now: nat)
    requires p.(files := []) == q.(files := [])
    ensures (Ready(p, f, now) <==> Ready(q, f, now)) && forall dm :: MapAfter(p, f, dm, now) == MapAfter(q, f, dm, now)
  {
    hide ReadyForDelete;
  }

  lemma WalkNext(q: Queue, rest: seq<Listed>, dm: DeleteMap, now: nat)
    requires rest != []
    ensures Kept(q, rest, now) == (if Ready(q, rest[0], now) then [] else [rest[0]]) + Kept(q, rest[1..], now)
    ensures MapAfterAll(q, rest, dm, now) == MapAfterAll(q, rest[1..], MapAfter(q, rest[0], dm, now), now)
  {
    hide Ready, MapAfter;
  }

  lemma WalkEnd(q: Queue, dm: DeleteMap, now: nat)
    ensures Kept(q, [], now) == [] && MapAfterAll(q, [], dm, now) == dm
  {
  }

  lemma DropHead(done: seq<Listed>, rest: seq<Listed>)
    requires rest != []
    ensures (done + rest)[|done|] == rest[0]
    ensures (done + rest)[..|done|] + (done + rest)[|done| + 1..] == done + rest[1..]
    ensures done + rest == done + [rest[0]] + rest[1..]
  {
  }

  lemma UnlinkedNext(qs: seq<Queue>, dm: DeleteMap, gone: set<string>, done: set<string>, path: string)
    requires path in gone && path in dm
    ensures Unlinked(qs, dm, gone * (done + {path})) ==
            Unlinked(qs, dm, gone * done) + if Shared(qs, dm[path].source) then {} else {dm[path]}
    ensures Rest(dm, gone * (done + {path})) == Rest(dm, gone * done) - {path}
  {
    hide Shared;
    assert gone * (done + {path}) == gone * done + {path};
  }

  lemma RoundDone(qs: seq<Queue>, dm: DeleteMap, gone: set<string>, done: set<string>)
    requires done == dm.Keys
    ensures Rest(dm, gone * done) == Rest(dm, gone) && Unlinked(qs, dm, gone * done) == Unlinked(qs, dm, gone)
  {
    hide Shared;
  }
}
