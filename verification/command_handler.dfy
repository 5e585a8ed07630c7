/** The callbacks of a configuration transaction, proved against the operations of CcbUndo. */
module CommandHandler {
  import opened Options
  import opened Text
  import opened TemplateGrammar
  import opened QueueEntries
  import opened QueueDatabase
  import opened CcbMerge
  import opened CcbUndo
  import opened DestinationDiffer

  lemma DestsNext(es: Entries, name: string, i: nat)
    requires i < |es|
    ensures Named(es[..i + 1], name) == Named(es[..i], name) + if es[i].name == name then [es[i]] else []
  {
    NamedAppend(es[..i], [es[i]], name);
    NamedNone(name);
    assert es[..i + 1] == es[..i] + [es[i]] && [es[i]][1..] == [];
  }

  lemma {:induction false} NamedAppend(a: Entries, b: Entries, name: string)
    ensures Named(a + b, name) == Named(a, name) + Named(b, name)
    decreases |a|
  {
    hide Named;
    if a == [] {
      assert a + b == b;
      NamedNone(name);
    } else {
      NamedAppend(a[1..], b, name);
      assert (a + b)[1..] == a[1..] + b;
      NamedCons(a, name);
      NamedCons(a + b, name);
    }
  }

  lemma NamedNone(name: string)
    ensures Named([], name) == []
  {
  }

  lemma NamedCons(es: Entries, name: string)
    requires es != []
    ensures Named(es, name) == (if es[0].name == name then [es[0]] else []) + Named(es[1..], name)
  {
  }

  lemma OneMore(dests: seq<string>, c: nat, k: nat)
    requires k < c <= |dests|
    ensures dests[..c][k..][0] == dests[k] && dests[..c][k..][1..] == dests[..c][k + 1..]
    ensures dests[..k + 1] == dests[..k] + [dests[k]]
  {
  }

  lemma HasDest(dests: seq<string>, k: nat)
    requires k < |dests| && HaveDests(dests)
    ensures dests[k] != ""
  {
    assert dests[k] in dests;
  }

  /** dest - with no queue behind it is never changed. */
  const DummyDest := "-"

  class Handler {
    const db: Database
    var prevState: Undo

    constructor (db: Database)
      ensures this.db == db && prevState == Nothing
    {
      this.db, prevState := db, Nothing;
    }

    /** infoAllDestset: the entries whose destinations and types are asked for. */
    method DestinationSets(name: string) returns (sets: Entries)
      ensures sets == Named(db.tqs, name)
    {
      sets := [];
      for i := 0 to |db.tqs|
        invariant sets == Named(db.tqs[..i], name)
      {
        DestsNext(db.tqs, name, i);
        if db.tqs[i].name == name { sets := sets + [db.tqs[i]]; }
      }
      assert db.tqs[..|db.tqs|] == db.tqs;
    }

    /** The blocks of all destinations, each with the attributes of f and its own type. */
    method LogAll(f: Entry, name: string) returns (prevDb: seq<Block>)
      ensures var q := Named(db.tqs, name);
              prevDb == seq(|q|, i requires 0 <= i < |q| => Block(f.name, q[i].dest, f.attrs.(kind := q[i].attrs.kind)))
    {
      hide Named;
      var sets := DestinationSets(name);
      prevDb := [];
      for k := 0 to |sets|
        invariant prevDb == seq(k, i requires 0 <= i < k =>
                    Block(f.name, sets[i].dest, f.attrs.(kind := sets[i].attrs.kind)))
      {
        prevDb := prevDb + [Block(f.name, sets[k].dest, f.attrs.(kind := sets[k].attrs.kind))];
      }
    }

    /** The log is written before the removal, and kept when the removal fails. */
    method Deleted(name: string, env: Env) returns (ok: bool)
      requires prevState == Nothing
      modifies this`prevState, db
      ensures (db.tqs, prevState) == Delete(old(db.tqs), name, env)
    {
      hide Sweep, SweepCode, Named, FirstNamed;
      var first, _ := db.GetTransferQueueAttributes(name, "", env.known);
      if first.None? { return false; }
      var prevDb := LogAll(first.value, name);
      assert prevDb == DeleteLog(db.tqs, name);
      prevState := CreateTqRec(prevDb);
      if env.referred { return false; }
      var code;
      ok, code := db.RemoveTransferQueue(name);
    }

    method RemoveDestinationOi(name: string, dest: string, env: Env) returns (ok: bool)
      modifies db
      ensures db.tqs == TakeAway(old(db.tqs), name, dest, env)
      ensures ok <==> TakesAway(old(db.tqs), name, dest, env)
    {
      var i := FindKey(db.tqs, name + "_" + dest);
      if i < 0 || !db.tqs[i].world.idle { return false; }
      var code;
      ok, code := db.RemoveDestinationSet(name, dest, env.writes, env.known);
    }

    method AddDestination(name: string, dest: string, kind: int, env: Env) returns (ok: bool)
      requires prevState == Nothing
      modifies this`prevState, db
      ensures (db.tqs, prevState) == AddDest(old(db.tqs), name, dest, kind, env)
      ensures ok <==> prevState != Nothing
    {
      hide Refusal, Created;
      var first, _ := db.GetTransferQueueAttributes(name, "", env.known);
      if first.None? { return false; }
      var a, code := first.value.attrs.(kind := kind), NoError;
      ok, code := db.CreateTransferQueue(first.value.name, dest, a, env.up, env.blades);
      if ok { prevState := RemoveDestSet(Block(first.value.name, dest, a)); }
    }

    method RemoveDestination(name: string, dest: string, kind: int, env: Env) returns (ok: bool)
      requires prevState == Nothing
      modifies this`prevState, db
      ensures (db.tqs, prevState) == DropDest(old(db.tqs), name, dest, kind, env)
      ensures ok <==> prevState != Nothing
    {
      hide TakeAway, TakesAway;
      var e, _ := db.GetTransferQueueAttributes(name, dest, env.known);
      if e.None? { return false; }
      ok := RemoveDestinationOi(name, dest, env);
      if ok { prevState := CreateTq(Block(e.value.name, e.value.dest, e.value.attrs.(kind := kind))); }
    }

    /** modify on a destination attribute: existing counts the destinations of both attributes. */
    method Modify(name: string, current: seq<string>, modified: seq<string>, kind: int, existing: nat, env: Env)
      returns (ok: bool, ghost c: Change)
      requires prevState == Nothing && forall x :: x in current || x in modified ==> x != ""
      modifies this`prevState, db
      ensures c.Added? ==> multiset(modified) == multiset(current) + multiset{c.name}
      ensures c.Removed? ==> multiset(current) == multiset(modified) + multiset{c.name}
      ensures c.Several? ==> forall x :: multiset(modified) != multiset(current) + multiset{x}
      ensures c.Several? ==> forall x :: multiset(current) != multiset(modified) + multiset{x}
      ensures (db.tqs, prevState) ==
              match c
              case Added(x) =>
                if existing < 3 && x != "-" then AddDest(old(db.tqs), name, x, kind, env)
                else (old(db.tqs), Nothing)
              case Removed(x) =>
                if existing != 1 && x != "-" then DropDest(old(db.tqs), name, x, kind, env)
                else (old(db.tqs), Nothing)
              case _ => (old(db.tqs), Nothing)
      ensures ok <==> prevState != Nothing
    {
      hide AddDest, DropDest;
      var change := Difference(current, modified);
      c, ok := change, false;
      match change {
        case Removed(x) =>
          if existing == 1 || x == DummyDest { return; }
          ok := RemoveDestination(name, x, kind, env);
        case Added(x) =>
          if existing >= 3 || x == DummyDest { return; }
          ok := AddDestination(name, x, kind, env);
        case _ =>
      }
    }

    /** complete for a new queue. */
    method CompleteNew(name: string, dests: seq<string>, a: Attrs, env: Env) returns (ok: bool)
      requires prevState == Nothing
      modifies this`prevState, db
      ensures (db.tqs, prevState) == CompleteCreate(old(db.tqs), name, dests, a, env)
    {
      hide Refusal, Created;
      ghost var es := db.tqs;
      var prevDb := [];
      for k := 0 to |dests|
        invariant prevDb == Blocks(name, dests[..k], a) && prevState == Nothing
        invariant var r, rest := CreateEach(es, name, dests, a, env), CreateEach(db.tqs, name, dests[k..], a, env);
                  r.0 == rest.0 && r.1 == k + rest.1
      {
        assert dests[k..][0] == dests[k] && dests[k..][1..] == dests[k + 1..];
        ghost var before := db.tqs;
        var created, code := db.CreateTransferQueue(name, dests[k], a, env.up, env.blades);
        if !created {
          assert CreateEach(before, name, dests[k..], a, env) == (before, 0);
          assert CreateEach(es, name, dests, a, env) == (before, k) && db.tqs == before;
          hide CreateEach, Create;
          RollBack(name, if k < 2 then 0 else k - 1, env);
          return false;
        }
        assert Create(before, name, dests[k], a, env.up, env.blades) == db.tqs;
        prevDb := prevDb + [Block(name, dests[k], a)];
        assert dests[..k + 1] == dests[..k] + [dests[k]];
      }
      assert dests[..|dests|] == dests && dests[|dests|..] == [];
      prevState := RemoveTq(prevDb);
      ok := true;
    }

    /** n calls of handle_removeSourceDirectoryFiles. */
    method RollBack(name: string, n: nat, env: Env)
      modifies db
      ensures db.tqs == SweepTimes(old(db.tqs), name, n, env.referred)
    {
      ghost var es := db.tqs;
      for k := 0 to n
        invariant SweepTimes(es, name, n, env.referred) == SweepTimes(db.tqs, name, n - k, env.referred)
      {
        if !env.referred { var _, _ := db.RemoveTransferQueue(name); }
      }
    }

    /** Each destination is checked and set; a setting that fails forgets the log, a check that fails does not. */
    method SetChecked(f: Entry, dests: seq<string>, a: Attrs, change: bool, env: Env) returns (ok: bool)
      requires prevState == Nothing && HaveDests(dests)
      modifies this`prevState, db
      ensures var k := Checked(dests, env.refuses);
              var r := SetEach(old(db.tqs), f.name, dests[..k], a, change, env.blades);
              && db.tqs == r.0 && (ok <==> r.1 >= k == |dests|)
              && prevState == if r.1 < k then Nothing else ModifyTq(Blocks(f.name, dests[..k], f.attrs))
    {
      hide SetOne, SetOneCode, SetAll, SetAllCode, Checked, HaveDests;
      ghost var es, c := db.tqs, Checked(dests, env.refuses);
      var prevDb, k := [], 0;
      while k < |dests| && dests[k] !in env.refuses
        invariant k <= c && prevDb == Blocks(f.name, dests[..k], f.attrs) && prevState == Nothing
        invariant var r := SetEach(es, f.name, dests[..c], a, change, env.blades);
                  var rest := SetEach(db.tqs, f.name, dests[..c][k..], a, change, env.blades);
                  r.0 == rest.0 && r.1 == k + rest.1
      {
        OneMore(dests, c, k);
        HasDest(dests, k);
        var done, _ := db.SetTransferQueueAttributes(f.name, dests[k], a, change, env.blades);
        if !done { return false; }
        prevDb := prevDb + [Block(f.name, dests[k], f.attrs)];
        k := k + 1;
      }
      assert k == c && dests[..c][c..] == [];
      prevState := ModifyTq(prevDb);
      ok := k == |dests|;
    }

    /** complete for changed parameters; a is the outcome of merging. */
    method CompleteChange(name: string, a: Attrs, change: bool, env: Env) returns (ok: bool)
      requires prevState == Nothing && HaveDests(Dests(db.tqs, name))
      modifies this`prevState, db
      ensures (db.tqs, prevState) == CompleteModify(old(db.tqs), name, a, change, env)
      ensures ok <==> ModifyCompletes(old(db.tqs), name, a, change, env)
    {
      hide FirstNamed, SetEach, Checked, HaveDests;
      var first, _ := db.GetTransferQueueAttributes(name, "", env.known);
      if first.None? || !env.valid { return false; }
      var sets := DestinationSets(name);
      var dests := seq(|sets|, i requires 0 <= i < |sets| => sets[i].dest);
      assert dests == Dests(db.tqs, name);
      hide Dests;
      ok := SetChecked(first.value, dests, a, change, env);
    }

    /** The name tag of the changed parameters. */
    method MergeNameTag(was: string, given: string, g: Given) returns (tag: Option<string>)
      ensures tag == MergeTag(was, given, g.tag1, g.tag2)
    {
      if g.tag1 == g.tag2 { return Some(if g.tag1 then given else was); }
      if was == "" { return if g.tag2 then None else Some(given); }
      var indexy := LastStar(was);
      var buffer1, buffer2 := was, "";
      if indexy != -1 {
        buffer2 := was[indexy + 1..];
        buffer1 := was[..indexy];
      }
      var buffer := if g.tag2 then buffer1 else given;
      var second := if g.tag2 then given else buffer2;
      if second != "" { buffer := buffer + "*" + second; }
      return Some(buffer);
    }

    /** What is not given stays. */
    method MergeAttributes(was: Attrs, given: Attrs, g: Given) returns (merged: Option<Attrs>)
      ensures merged == Merge(was, given, g)
    {
      hide MergeTag;
      var tag := MergeNameTag(was.nameTag, given.nameTag, g);
      if tag.None? { return None; }
      var a := given;
      if !g.template { a := a.(template := was.template); }
      a := a.(nameTag := tag.value);
      if !g.removeBefore { a := a.(removeBefore := was.removeBefore); }
      if !g.removeDelay { a := a.(removeDelay := was.removeDelay); }
      if !g.status { a := a.(status := was.status); }
      if !g.retries { a := a.(retries := was.retries); }
      if !g.retryDelay { a := a.(retryDelay := was.retryDelay); }
      if !g.startup { a := a.(startup := was.startup); }
      return Some(a);
    }

    /** complete for changed parameters, from what the transaction gives. */
    method CompleteParameters(name: string, given: Attrs, g: Given, env: Env) returns (ok: bool)
      requires prevState == Nothing && HaveDests(Dests(db.tqs, name))
      modifies this`prevState, db
      ensures (db.tqs, prevState) == CompleteParams(old(db.tqs), name, given, g, env)
      ensures ok <==> ParamsComplete(old(db.tqs), name, given, g, env)
    {
      hide FirstNamed, CompleteModify, Merge, ModifyCompletes;
      var first, _ := db.GetTransferQueueAttributes(name, "", env.known);
      if first.None? { return false; }
      var a := MergeAttributes(first.value.attrs, given, g);
      if a.None? { return false; }
      ok := CompleteChange(name, a.value, TemplateChange(g), env);
    }

    /** The log is replayed to its end, whatever its steps answer. */
    method Abort(env: Env)
      modifies this`prevState, db
      ensures db.tqs == Replay(old(db.tqs), old(prevState), env) && prevState == Nothing
    {
      hide CreateBlocks, SetBlocks, SweepBlocks, TakeAway, TakesAway, Create, Refusal;
      match prevState {
        case Nothing =>
        case RemoveTq(blocks) => RemoveBlocks(blocks, env);
        case RemoveDestSet(b) => var _ := RemoveDestinationOi(b.name, b.dest, env);
        case CreateTqRec(blocks) => RecreateBlocks(blocks, env);
        case CreateTq(b) => var _, _ := db.CreateTransferQueue(b.name, b.dest, b.a, env.up, env.blades);
        case ModifyTq(blocks) => ResetBlocks(blocks, env);
      }
      prevState := Nothing;
    }

    method RemoveBlocks(blocks: seq<Block>, env: Env)
      modifies db
      ensures db.tqs == SweepBlocks(old(db.tqs), blocks, env)
    {
      for k := 0 to |blocks|
        invariant SweepBlocks(old(db.tqs), blocks, env) == SweepBlocks(db.tqs, blocks[k..], env)
      {
        assert blocks[k..][0] == blocks[k] && blocks[k..][1..] == blocks[k + 1..];
        if !env.referred { var _, _ := db.RemoveTransferQueue(blocks[k].name); }
      }
    }

    method RecreateBlocks(blocks: seq<Block>, env: Env)
      modifies db
      ensures db.tqs == CreateBlocks(old(db.tqs), blocks, env)
    {
      hide Create;
      for k := 0 to |blocks|
        invariant CreateBlocks(old(db.tqs), blocks, env) == CreateBlocks(db.tqs, blocks[k..], env)
      {
        assert blocks[k..][0] == blocks[k] && blocks[k..][1..] == blocks[k + 1..];
        var b := blocks[k];
        var _, _ := db.CreateTransferQueue(b.name, b.dest, b.a, env.up, env.blades);
      }
    }

    method ResetBlocks(blocks: seq<Block>, env: Env)
      modifies db
      ensures db.tqs == SetBlocks(old(db.tqs), blocks, env)
    {
      hide SetAttributes;
      for k := 0 to |blocks|
        invariant SetBlocks(old(db.tqs), blocks, env) == SetBlocks(db.tqs, blocks[k..], env)
      {
        assert blocks[k..][0] == blocks[k] && blocks[k..][1..] == blocks[k + 1..];
        var b := blocks[k];
        var _, _ := db.SetTransferQueueAttributes(b.name, b.dest, b.a, false, env.blades);
      }
    }
  }
}
