/** What a configuration transaction is about: queues, destinations and attributes, in key order. */
module CcbListing {
  import opened Options
  import opened Text
  import opened TemplateGrammar
  import opened QueueEntries
  import opened QueueOrder
  import opened QueueInvariants

  datatype Line = Line(key: string, name: string, dest: string, a: Attrs)

  function LineOf(e: Entry): Line {
    Line(e.key, e.name, e.dest, e.attrs)
  }

  function Listing(es: Entries): (r: seq<Line>)
    ensures |r| == |es|
  {
    seq(|es|, i requires 0 <= i < |es| => LineOf(es[i]))
  }

  lemma ListingAppend(a: Entries, b: Entries)
    ensures Listing(a + b) == Listing(a) + Listing(b)
  {
  }

  lemma ListingSplice(a: Entries, e: Entry, b: Entries)
    ensures Listing(a + [e] + b) == Listing(a) + [LineOf(e)] + Listing(b)
  {
  }

  lemma ListingFaced(es: Entries, worlds: seq<World>)
    requires |worlds| == |es|
    ensures Listing(Faced(es, worlds)) == Listing(es)
  {
  }

  lemma ListingRows(es: Entries, fs: Entries)
    requires SameRows(es, fs)
    ensures Listing(fs) == Listing(es)
  {
    hide Row;
    forall i | 0 <= i < |es| ensures LineOf(fs[i]) == LineOf(es[i]) {
      SameRow(es[i], fs[i]);
    }
  }

  lemma ListingErase(es: Entries, i: nat)
    requires i < |es|
    ensures Listing(Erase(es, i)) == Listing(es)[..i] + Listing(es)[i + 1..]
  {
  }

  // what creation looks at depends on the listing only

  lemma {:induction false} SameFind(es: Entries, fs: Entries, key: string)
    requires Listing(es) == Listing(fs)
    ensures FindKey(es, key) == FindKey(fs, key)
  {
    forall i | 0 <= i < |es| ensures fs[i].key == es[i].key {
      assert Listing(es)[i] == Listing(fs)[i];
    }
    FindSame(es, fs, key);
  }

  lemma {:induction false} SameDest(es: Entries, fs: Entries, dest: string)
    requires Listing(es) == Listing(fs)
    ensures ToDest(es, dest) == ToDest(fs, dest)
    decreases |es|
  {
    if es != [] {
      assert Listing(es)[0] == Listing(fs)[0];
      assert Listing(es[1..]) == Listing(es)[1..] && Listing(fs[1..]) == Listing(fs)[1..];
      SameDest(es[1..], fs[1..], dest);
    }
  }

  /** Adding the attributes an agreeing entry has. */
  lemma AdoptOwn(first: Option<Entry>, a: Attrs)
    requires first.Some? ==> Agrees(first.value.attrs, a)
    ensures first.Some? ==> Misfit(first.value, a) == NoError
    ensures Adopt(first, a) == a
  {
  }

  lemma InitSame(a: Attrs, b: Attrs, up: bool, blades: bool)
    requires a.template == b.template && a.nameTag == b.nameTag
    ensures InitOk(a, up, blades) <==> InitOk(b, up, blades)
  {
    hide Parse;
  }

  /** When creation with the attributes of an agreeing queue succeeds ... */
  lemma CreatesWhen(es: Entries, name: string, dest: string, a: Attrs, up: bool, blades: bool)
    requires '/' !in name && FindKey(es, Key(name, dest)) < 0 && ToDest(es, dest) < MaxDestinations
    requires forall e :: e in es && e.name == name ==> Agrees(e.attrs, a)
    ensures Refusal(es, name, dest, a, up, blades) == NoError <==> InitOk(a, up, blades)
  {
    hide Agrees, Misfit, Adopt, InitOk, FindKey, ToDest, Key, BaseName;
    PlainName(name);
    AdoptOwn(FirstNamed(es, name), a);
  }

  /** ... and the line it adds. */
  lemma CreatesLine(es: Entries, name: string, dest: string, a: Attrs)
    requires '/' !in name && forall e :: e in es && e.name == name ==> Agrees(e.attrs, a)
    ensures LineOf(Created(es, name, dest, a)) == Line(Key(name, dest), name, dest, a)
  {
    hide Agrees, Misfit, Adopt, Key, BaseName, Built;
    PlainName(name);
    AdoptOwn(FirstNamed(es, name), a);
  }

  lemma FiledKey(e: Entry)
    requires Filed(e)
    ensures Key(e.name, e.dest) == e.name + "_" + e.dest == e.key && '/' !in e.name
  {
    PlainName(e.name);
  }
}
