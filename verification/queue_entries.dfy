/** The transfer queue map: one entry per transfer queue and destination set, in key order. */
module QueueEntries {
  import opened Options
  import opened Text
  import opened TemplateGrammar

  datatype Rename = Local | Remote | NoRename

  /** What getAttributes copies out and init takes in; kind is the destination set type. */
  datatype Attrs = Attrs(
    sourceDir: string, status: int, removeDelay: int, removeBefore: bool, retryDelay: int,
    retries: int, rename: Rename, template: string, userGroup: string, nameTag: string,
    startup: int, kind: int)

  datatype Removal = RemoveOk | RemoveProtected | RemoveError
  datatype Writing = WriteOk | WriteFails | WriteFailsLate

  /** A template object: what it was built from. */
  datatype Live = Live(template: string, nameTag: string, startup: int)

  /** persist.nr: not there, without a number in it, or with one. */
  datatype PersistNr = Missing | Garbled | Number(value: nat)

  /** What a destination makes of a file: it leaves the error code alone, or sets it. */
  datatype Taking = Silent | Accepts | Rejects

  /** What the environment answers for an entry: to removeAll, to writing its configuration, whether a
      transfer is in progress, whether no file waits or is being sent, the name localRenameFile gives
      to the next file, the content of persist.nr, and to being given the file. */
  datatype World = World(
    removal: Removal, writing: Writing, busy: bool, idle: bool, nextName: string, persist: PersistNr,
    taking: Taking)

  const NewWorld := World(RemoveOk, WriteOk, false, true, "", Missing, Accepts)

  datatype Entry = Entry(
    key: string, name: string, dest: string, attrs: Attrs, manual: bool, firstDs: bool,
    live: Option<Live>, world: World)

  type Entries = seq<Entry>

  datatype Code =
    | NoError | ProcOrderExist | TooManyTq | WrongRenameType | WrongTemplate | InconsistentDir
    | WrongNameTag | WrongStartup | InitFailed | NoProcOrder | FileIsProtected | NotRemoved
    | Combination | NoDestination | NotRetained | NotWritten | TqIsOpen | TemplateFault

  const MaxDestinations := 32

  function Key(name: string, dest: string): string {
    BaseName(name) + "_" + dest
  }

  function FindKey(es: Entries, key: string): (i: int)
    ensures -1 <= i < |es|
    ensures i >= 0 ==> es[i].key == key
    ensures i < 0 ==> forall e :: e in es ==> e.key != key
  {
    if es == [] then -1
    else if es[0].key == key then 0
    else var i := FindKey(es[1..], key); if i < 0 then -1 else i + 1
  }

  predicate Defined(es: Entries, name: string) {
    exists e :: e in es && e.name == name
  }

  function FirstNamed(es: Entries, name: string): (r: Option<Entry>)
    ensures r.Some? ==> r.value in es && r.value.name == name
    ensures r.None? <==> !Defined(es, name)
  {
    if es == [] then None else if es[0].name == name then Some(es[0]) else FirstNamed(es[1..], name)
  }

  function ToDest(es: Entries, dest: string): nat {
    if es == [] then 0 else (if es[0].dest == dest then 1 else 0) + ToDest(es[1..], dest)
  }

  /** Insertion into the ordered map. */
  function Insert(es: Entries, e: Entry): Entries {
    if es == [] then [e]
    else if Less(e.key, es[0].key) then [e] + es
    else [es[0]] + Insert(es[1..], e)
  }

  function Erase(es: Entries, i: nat): Entries
    requires i < |es|
  {
    es[..i] + es[i + 1..]
  }

  /** The template object that belongs to a record. */
  function Built(a: Attrs): Option<Live> {
    if a.template == "" then None else Some(Live(a.template, a.nameTag, a.startup))
  }

  function NewEntry(name: string, dest: string, a: Attrs, firstDs: bool): Entry {
    Entry(Key(name, dest), name, dest, a, false, firstDs, Built(a), NewWorld)
  }

  /** The comparison with the first entry of the queue. */
  function Misfit(e: Entry, a: Attrs): Code {
    if e.attrs.rename != a.rename then WrongRenameType
    else if e.attrs.template != a.template then WrongTemplate
    else if a.sourceDir != "" && e.attrs.sourceDir != a.sourceDir then InconsistentDir
    else if a.nameTag != "" && e.attrs.nameTag != a.nameTag then WrongNameTag
    else if e.attrs.startup != a.startup then WrongStartup
    else NoError
  }

  /** A missing source directory or name tag is taken over. */
  function Adopt(first: Option<Entry>, a: Attrs): Attrs {
    if first.None? then a
    else a.(sourceDir := if a.sourceDir == "" then first.value.attrs.sourceDir else a.sourceDir,
            nameTag := if a.nameTag == "" then first.value.attrs.nameTag else a.nameTag)
  }

  /** Whether init succeeds: the template is accepted, and up stands for its other steps. */
  predicate InitOk(a: Attrs, up: bool, blades: bool) {
    up && (a.template == "" || Parse(a.template, a.nameTag, blades).Good?)
  }

  /** createTransferQueue: why it refuses, NoError when it does not. */
  function Refusal(es: Entries, name: string, dest: string, a: Attrs, up: bool, blades: bool): Code {
    var first := FirstNamed(es, BaseName(name));
    if FindKey(es, Key(name, dest)) >= 0 then ProcOrderExist
    else if ToDest(es, dest) >= MaxDestinations then TooManyTq
    else if first.Some? && Misfit(first.value, a) != NoError then Misfit(first.value, a)
    else if !InitOk(Adopt(first, a), up, blades) then InitFailed
    else NoError
  }

  function Created(es: Entries, name: string, dest: string, a: Attrs): Entry {
    NewEntry(name, dest, Adopt(FirstNamed(es, BaseName(name)), a), Defined(es, name))
  }

  function Create(es: Entries, name: string, dest: string, a: Attrs, up: bool, blades: bool): Entries {
    if Refusal(es, name, dest, a, up, blades) == NoError then Insert(es, Created(es, name, dest, a)) else es
  }

  /** removeTransferQueue: each entry of the queue goes unless it is protected; an error stops it. */
  function Sweep(es: Entries, name: string): Entries {
    if es == [] then es
    else if es[0].name == name && es[0].world.removal == RemoveError then es
    else if es[0].name == name && es[0].world.removal == RemoveOk then Sweep(es[1..], name)
    else [es[0]] + Sweep(es[1..], name)
  }

  predicate Answers(es: Entries, name: string, r: Removal) {
    exists e :: e in es && e.name == name && e.world.removal == r
  }

  function SweepCode(es: Entries, name: string): Code {
    if !Defined(es, name) then NoProcOrder
    else if Answers(es, name, RemoveError) then NotRemoved
    else if Answers(es, name, RemoveProtected) then FileIsProtected
    else NoError
  }

  predicate Follows(e: Entry, name: string) {
    e.name == name && e.firstDs
  }

  /** RetainPersistantNumber: the first follower of the queue leads now and gets the number. */
  function Retain(es: Entries, name: string, number: nat, writes: bool): (r: Entries)
    ensures |r| == |es|
  {
    if es == [] then es
    else if Follows(es[0], name) then [Promote(es[0], number, writes)] + es[1..]
    else [es[0]] + Retain(es[1..], name, number, writes)
  }

  function Promote(e: Entry, number: nat, writes: bool): Entry {
    e.(firstDs := false, world := e.world.(persist := if writes then Number(number) else e.world.persist))
  }

  predicate HasFollower(es: Entries, name: string) {
    exists e :: e in es && Follows(e, name)
  }

  /** What reading an opened persist.nr yields. */
  function Read(p: PersistNr): nat {
    if p.Number? then p.value else 0
  }

  /** The leadership is handed on when a leader whose persist.nr can be opened is to go. */
  predicate HandsOn(e: Entry) {
    !e.firstDs && e.world.persist != Missing
  }

  /** The state in which removeDestinationSet asks the entry to remove itself. */
  function Handed(es: Entries, i: nat, writes: bool): (r: Entries)
    requires i < |es|
    ensures |r| == |es|
  {
    if HandsOn(es[i]) then Retain(es, es[i].name, Read(es[i].world.persist), writes) else es
  }

  /** removeDestinationSet; writes: the new leader's persist.nr can be written, known: CDH knows dest. */
  function RemoveCode(es: Entries, name: string, dest: string, writes: bool, known: bool): Code {
    var i := FindKey(es, name + "_" + dest);
    if !Defined(es, name) then NoProcOrder
    else if i < 0 then (if known then Combination else NoDestination)
    else if HandsOn(es[i]) && HasFollower(es, es[i].name) && !writes then NotRetained
    else if es[i].world.removal == RemoveProtected then FileIsProtected
    else if es[i].world.removal == RemoveError then NotRemoved
    else NoError
  }

  function RemoveDest(es: Entries, name: string, dest: string, writes: bool, known: bool): Entries {
    var i := FindKey(es, name + "_" + dest);
    if !Defined(es, name) || i < 0 then es
    else if RemoveCode(es, name, dest, writes, known) == NoError then Erase(Handed(es, i, writes), i)
    else Handed(es, i, writes)
  }

  /** The branches of setAttributes on the template. */
  datatype Turn = Kept | Renewed | Dropped | Faulty | Open

  function TemplateTurn(e: Entry, a: Attrs, change: bool, blades: bool): Turn {
    if !change || (a.template == "" && e.live.None?) then Kept
    else if e.world.busy then Open
    else if a.template == "" then Dropped
    else if Parse(a.template, a.nameTag, blades).Bad? then Faulty
    else Renewed
  }

  function SetCode(e: Entry, a: Attrs, change: bool, blades: bool): Code {
    var turn := TemplateTurn(e, a, change, blades);
    if e.world.writing == WriteFails then NotWritten
    else if turn == Open then TqIsOpen
    else if turn == Faulty then TemplateFault
    else if e.world.writing == WriteFailsLate then NotWritten
    else NoError
  }

  /** The fields of the record that setAttributes always writes. */
  function Written(was: Attrs, a: Attrs, rename: Rename): Attrs {
    was.(retries := a.retries, removeDelay := a.removeDelay, status := a.status, retryDelay := a.retryDelay,
         removeBefore := a.removeBefore, nameTag := a.nameTag, template := a.template, startup := a.startup,
         rename := rename)
  }

  function TurnRename(turn: Turn, rename: Rename): Rename {
    match turn
    case Renewed => Local
    case Dropped | Faulty => NoRename
    case Kept | Open => rename
  }

  function TurnLive(turn: Turn, a: Attrs, live: Option<Live>): Option<Live> {
    match turn
    case Renewed => Some(Live(a.template, a.nameTag, a.startup))
    case Dropped | Faulty => None
    case Kept | Open => live
  }

  /** setAttributes. */
  function SetEntry(e: Entry, a: Attrs, change: bool, blades: bool): Entry {
    var turn := TemplateTurn(e, a, change, blades);
    var rename := TurnRename(turn, e.attrs.rename);
    if e.world.writing == WriteFails then e
    else e.(attrs := if turn == Open || turn == Faulty then e.attrs.(rename := rename)
                     else Written(e.attrs, a, rename),
            live := TurnLive(turn, a, e.live))
  }

  /** setTransferQueueAttributes without a destination set: in key order up to the first failure. */
  function SetAll(es: Entries, name: string, a: Attrs, change: bool, blades: bool): Entries {
    if es == [] then es
    else if es[0].name != name then [es[0]] + SetAll(es[1..], name, a, change, blades)
    else if SetCode(es[0], a, change, blades) != NoError then [SetEntry(es[0], a, change, blades)] + es[1..]
    else [SetEntry(es[0], a, change, blades)] + SetAll(es[1..], name, a, change, blades)
  }

  function SetAllCode(es: Entries, name: string, a: Attrs, change: bool, blades: bool): Code {
    if es == [] then NoError
    else if es[0].name == name && SetCode(es[0], a, change, blades) != NoError then
      SetCode(es[0], a, change, blades)
    else SetAllCode(es[1..], name, a, change, blades)
  }

  /** ... and for one destination set. */
  function SetOne(es: Entries, name: string, dest: string, a: Attrs, change: bool, blades: bool): (r: Entries)
    ensures |r| == |es|
  {
    var i := FindKey(es, name + "_" + dest);
    if i < 0 then es else es[i := SetEntry(es[i], a, change, blades)]
  }

  function SetOneCode(es: Entries, name: string, dest: string, a: Attrs, change: bool, blades: bool): Code {
    var i := FindKey(es, name + "_" + dest);
    if i < 0 then NoProcOrder else SetCode(es[i], a, change, blades)
  }

  /** setTransferQueueAttributes. */
  function SetAttributes(es: Entries, name: string, dest: string, a: Attrs, change: bool, blades: bool): Entries {
    if dest == "" then SetAll(es, name, a, change, blades) else SetOne(es, name, dest, a, change, blades)
  }

  function SetAttributesCode(es: Entries, name: string, dest: string, a: Attrs, change: bool, blades: bool): Code {
    if dest != "" then SetOneCode(es, name, dest, a, change, blades)
    else if !Defined(es, name) then NoProcOrder
    else SetAllCode(es, name, a, change, blades)
  }

  /** getTransferQueueAttributes. */
  function Lookup(es: Entries, name: string, dest: string, known: bool): Option<Entry> {
    if dest == "" then FirstNamed(es, name)
    else if dest != "-" && !known then None
    else var i := FindKey(es, name + "_" + dest); if i < 0 then None else Some(es[i])
  }

  function LookupCode(es: Entries, name: string, dest: string, known: bool): Code {
    if es == [] then NoProcOrder
    else if dest != "" && dest != "-" && !known then NoDestination
    else if Lookup(es, name, dest, known).Some? then NoError
    else if Defined(es, name) then Combination
    else NoProcOrder
  }

  predicate Takes(e: Entry, name: string) {
    !e.manual && e.name == name
  }

  /** sendFile, first pass: who renames the file. */
  predicate Renames(e: Entry, name: string) {
    Takes(e, name) && e.attrs.rename == Local && !e.firstDs
  }

  function Renamer(es: Entries, name: string): (r: Option<Entry>)
    ensures r.Some? ==> r.value in es && Renames(r.value, name)
    ensures r.None? ==> forall e :: e in es ==> !Renames(e, name)
  {
    if es == [] then None else if Renames(es[0], name) then Some(es[0]) else Renamer(es[1..], name)
  }

  /** ... and the name the file has after the pass: tmp before it, once: nobody renamed it yet. */
  function FileName(es: Entries, name: string, file: string, tmp: string, once: bool): string {
    if es == [] then tmp
    else if !Takes(es[0], name) then FileName(es[1..], name, file, tmp, once)
    else if es[0].attrs.rename != Local then FileName(es[1..], name, file, file, once)
    else if once && !es[0].firstDs then FileName(es[1..], name, file, es[0].world.nextName, false)
    else FileName(es[1..], name, file, tmp, once)
  }

  /** Second pass: the keys that are given the file, with its name. */
  function Given(es: Entries, name: string, file: string): seq<(string, string)> {
    if es == [] then []
    else if Takes(es[0], name) then [(es[0].key, file)] + Given(es[1..], name, file)
    else Given(es[1..], name, file)
  }

  /** ... and the keys of the entries on which localRenameFile is called. */
  function RenamedBy(es: Entries, name: string, once: bool): seq<string> {
    if es == [] then []
    else if once && Renames(es[0], name) then [es[0].key] + RenamedBy(es[1..], name, false)
    else RenamedBy(es[1..], name, once)
  }

  /** Whether the error code is NoError after the second pass; ok: before it. */
  function Taken(es: Entries, name: string, ok: bool): bool {
    if es == [] then ok
    else Taken(es[1..], name, if Takes(es[0], name) && es[0].world.taking != Silent then es[0].world.taking.Accepts? else ok)
  }

  /** sendFile: which entries rename the file, what each destination is given, and the result. */
  datatype Sending = Sending(renamedBy: seq<string>, given: seq<(string, string)>, ok: bool)

  function Sent(es: Entries, name: string, file: string): Sending {
    Sending(RenamedBy(es, name, true), Given(es, name, FileName(es, name, file, "", true)),
            (exists e :: e in es && Takes(e, name)) && Taken(es, name, true))
  }
}
