/** Abort against the operation it undoes: when the listing is what it was before the transaction. The
    world may change between the operation and the abort. */
module CcbAbort {
  import opened Options
  import opened Text
  import opened TemplateGrammar
  import opened QueueEntries
  import opened QueueOrder
  import opened QueueInvariants
  import opened QueueLeader
  import opened CcbUndo
  import opened CcbListing

  // ---------------------------------------------------------------- one destination more

  lemma AddSplices(es: Entries, name: string, dest: string, kind: int, env: Env) returns (p: nat, c: Entry)
    requires Sorted(es) && '/' !in name && AddDest(es, name, dest, kind, env).1 != Nothing
    ensures var t, undo := AddDest(es, name, dest, kind, env).0, AddDest(es, name, dest, kind, env).1;
            && undo.RemoveDestSet? && undo.block.name == name && undo.block.dest == dest
            && p <= |es| && t == es[..p] + [c] + es[p..] && Sorted(t) && t[p] == c
    ensures c.key == name + "_" + dest && c.name == name && c.firstDs
  {
    var f := FirstNamed(es, name).value;
    var a := f.attrs.(kind := kind);
    hide Refusal, Sorted, Adopt, Built;
    p := CreateSplices(es, name, dest, a, env.up, env.blades);
    c := Created(es, name, dest, a);
    PlainName(name);
  }

  lemma TakeAwayFollower(fs: Entries, name: string, dest: string, p: nat, env: Env)
    requires p < |fs| && FindKey(fs, name + "_" + dest) == p && fs[p].firstDs && fs[p].name == name
    ensures TakeAway(fs, name, dest, env) ==
            if fs[p].world.idle && fs[p].world.removal == RemoveOk then Erase(fs, p) else fs
  {
    assert fs[p] in fs && Defined(fs, name);
  }

  /** The destination just added is taken away again exactly when it is idle and lets itself be removed. */
  lemma AddDestAborted(es: Entries, name: string, dest: string, kind: int, env: Env, worlds: seq<World>, env': Env)
    requires Sorted(es) && '/' !in name
    requires var (t, undo) := AddDest(es, name, dest, kind, env); undo != Nothing && |worlds| == |t|
    ensures var (t, undo) := AddDest(es, name, dest, kind, env);
            var p := FindKey(t, name + "_" + dest);
            p >= 0 &&
            (Listing(Replay(Faced(t, worlds), undo, env')) == Listing(es) <==>
             worlds[p].idle && worlds[p].removal == RemoveOk)
  {
    var t, undo := AddDest(es, name, dest, kind, env).0, AddDest(es, name, dest, kind, env).1;
    var p, c := AddSplices(es, name, dest, kind, env);
    hide AddDest, TakeAway, Sorted, FindKey, Erase, Faced;
    FacedFollower(t, p, name, dest, worlds, env');
    ListingFaced(t, worlds);
    OneMore(es, p, c, Faced(t, worlds));
  }

  lemma FacedFollower(t: Entries, p: nat, name: string, dest: string, worlds: seq<World>, env: Env)
    requires Sorted(t) && p < |t| == |worlds| && t[p].key == name + "_" + dest && t[p].name == name && t[p].firstDs
    ensures FindKey(t, name + "_" + dest) == p
    ensures var fs := Faced(t, worlds);
            |fs| == |t| &&
            TakeAway(fs, name, dest, env) ==
            if worlds[p].idle && worlds[p].removal == RemoveOk then Erase(fs, p) else fs
  {
    hide FindKey, TakeAway, Sorted;
    FindAt(t, p);
    var fs := Faced(t, worlds);
    FindSame(t, fs, t[p].key);
    TakeAwayFollower(fs, name, dest, p, env);
  }

  lemma OneMore(es: Entries, p: nat, c: Entry, fs: Entries)
    requires p <= |es| && Listing(fs) == Listing(es[..p] + [c] + es[p..])
    ensures Listing(fs) != Listing(es) && p < |fs| && Listing(Erase(fs, p)) == Listing(es)
  {
    ListingErase(fs, p);
    ListingSplice(es[..p], c, es[p..]);
    ListingAppend(es[..p], es[p..]);
    assert es == es[..p] + es[p..];
  }

  // ---------------------------------------------------------------- one destination less

  lemma Shrinks(es: Entries, i: nat, t: Entries, dest: string)
    requires Capped(es) && i < |es| && Listing(t) == Listing(Erase(es, i)) && es[i].dest == dest
    ensures ToDest(t, dest) < MaxDestinations
  {
    SameDest(t, Erase(es, i), dest);
    ToDestSplice(es[..i], es[i], es[i + 1..], dest);
    assert es[..i] + [es[i]] + es[i + 1..] == es;
    assert ToDest(es, dest) <= MaxDestinations;
  }

  lemma StillAgrees(es: Entries, i: nat, t: Entries, a: Attrs, x: Entry)
    requires Agreement(es) && i < |es| && Listing(t) == Listing(Erase(es, i)) && Agrees(es[i].attrs, a)
    requires x in t && x.name == es[i].name
    ensures Agrees(x.attrs, a)
  {
    var k :| 0 <= k < |t| && t[k] == x;
    assert Listing(t)[k] == Listing(Erase(es, i))[k];
    var y := Erase(es, i)[k];
    assert y == es[if k < i then k else k + 1] && LineOf(y) == LineOf(x);
    assert y in es && es[i] in es && Agrees(y.attrs, es[i].attrs);
  }

  /** Creating the destination again in a listing that lacks just it. */
  lemma CreatesAgain(es: Entries, i: nat, t: Entries, kind: int, env: Env)
    requires Table(es) && i < |es| && Listing(t) == Listing(Erase(es, i))
    ensures var e := es[i]; var a := e.attrs.(kind := kind);
            Listing(Create(t, e.name, e.dest, a, env.up, env.blades)) ==
            if InitOk(e.attrs, env.up, env.blades) then Listing(es)[i := Line(e.key, e.name, e.dest, a)]
            else Listing(t)
  {
    var e := es[i];
    var a := e.attrs.(kind := kind);
    assert e in es && Filed(e);
    FiledKey(e);
    InsertErased(es, i, e);
    SameFind(t, Erase(es, i), e.key);
    Shrinks(es, i, t, e.dest);
    assert Agrees(e.attrs, a);
    forall x | x in t && x.name == e.name ensures Agrees(x.attrs, a) {
      StillAgrees(es, i, t, a, x);
    }
    hide Agrees, Filed, AllFiled, Agreement, Capped, InitOk, ToDest, FindKey, Refusal, Key;
    CreatesWhen(t, e.name, e.dest, a, env.up, env.blades);
    CreatesLine(t, e.name, e.dest, a);
    InitSame(e.attrs, a, env.up, env.blades);
    InsertsLine(es, i, t, Created(t, e.name, e.dest, a));
  }

  lemma InsertsLine(es: Entries, i: nat, t: Entries, c: Entry)
    requires Sorted(es) && i < |es| && Listing(t) == Listing(Erase(es, i)) && c.key == es[i].key
    ensures Listing(Insert(t, c)) == Listing(es)[i := LineOf(c)]
  {
    var a, b := t[..i], t[i..];
    forall x | x in a ensures Less(x.key, c.key) {
      var k :| 0 <= k < i && t[k] == x;
      assert LineOf(x) == Listing(t)[k] == Listing(Erase(es, i))[k] == LineOf(es[k]);
    }
    forall x | x in b ensures Less(c.key, x.key) {
      var k :| i <= k < |t| && t[k] == x;
      assert LineOf(x) == Listing(t)[k] == Listing(Erase(es, i))[k] == LineOf(es[k + 1]);
    }
    assert a + b == t;
    InsertBetween(a, c, b);
    ListingSplice(a, c, b);
    ListingAppend(a, b);
    ListingErase(es, i);
    assert Listing(a) == Listing(t)[..i] && Listing(b) == Listing(t)[i..];
  }

  /** The entry is found, idle and removed. */
  predicate Drops(es: Entries, name: string, dest: string, env: Env) {
    dest != "" && (dest == "-" || env.known) && TakesAway(es, name, dest, env)
  }

  /** A destination taken away comes back with its own attributes, exactly when it can be set up and the
      type of the modified attribute was its type. */
  lemma DropDestAborted(es: Entries, name: string, dest: string, kind: int, env: Env, worlds: seq<World>, env': Env)
    requires Table(es) && Drops(es, name, dest, env) && |worlds| == |es| - 1
    ensures var (t, undo) := DropDest(es, name, dest, kind, env);
            var i := FindKey(es, name + "_" + dest);
            i >= 0 && undo != Nothing && |t| == |worlds| &&
            (Listing(Replay(Faced(t, worlds), undo, env')) == Listing(es) <==>
             InitOk(es[i].attrs, env'.up, env'.blades) && kind == es[i].attrs.kind)
  {
    hide DropDest, Drops, Table, InitOk, Create, FindKey, Erase, Faced, Listing;
    var i := DropDestIs(es, name, dest, kind, env);
    var t := DropDest(es, name, dest, kind, env).0;
    ListingFaced(t, worlds);
    CreatesAgain(es, i, Faced(t, worlds), kind, env');
    OneKind(es, i, kind, t);
  }

  /** A listing with one kind replaced, or one line missing. */
  lemma OneKind(es: Entries, i: nat, kind: int, t: Entries)
    requires i < |es| && Listing(t) == Listing(Erase(es, i))
    ensures |t| == |es| - 1 && Listing(t) != Listing(es)
    ensures var e := es[i];
            Listing(es)[i := Line(e.key, e.name, e.dest, e.attrs.(kind := kind))] == Listing(es) <==> kind == e.attrs.kind
  {
    ListingErase(es, i);
    assert |t| == |Listing(t)|;
    assert Listing(es)[i] == LineOf(es[i]);
  }

  lemma DropDestIs(es: Entries, name: string, dest: string, kind: int, env: Env) returns (i: int)
    requires Drops(es, name, dest, env)
    ensures i == FindKey(es, name + "_" + dest) && i >= 0
    ensures var e, r := es[i], DropDest(es, name, dest, kind, env);
            && Listing(r.0) == Listing(Erase(es, i)) && |r.0| == |es| - 1
            && r.1 == CreateTq(Block(e.name, e.dest, e.attrs.(kind := kind)))
  {
    i := FindKey(es, name + "_" + dest);
    hide Handed, Erase, FindKey;
    HandedRows(es, i, env.writes);
    SameRowsErased(es, Handed(es, i, env.writes), i);
    ListingErase(es, i);
  }

  lemma SameRowsErased(es: Entries, h: Entries, i: nat)
    requires SameRows(es, h) && i < |es|
    ensures Listing(Erase(h, i)) == Listing(Erase(es, i))
  {
    ListingRows(es, h);
    ListingErase(h, i);
    ListingErase(es, i);
  }
}
