/** The undo log of a configuration transaction: what each operation records and how abort replays it. */
module CcbUndo {
  import opened Options
  import opened Text
  import opened TemplateGrammar
  import opened QueueEntries

  /** A data block: the destination it is for and the attributes of a queue. */
  datatype Block = Block(name: string, dest: string, a: Attrs)

  /** prevState: the blocks in use and what abort does with them. */
  datatype Undo =
    | Nothing
    | RemoveTq(blocks: seq<Block>)
    | RemoveDestSet(block: Block)
    | CreateTqRec(blocks: seq<Block>)
    | CreateTq(block: Block)
    | ModifyTq(blocks: seq<Block>)

  /** Answers of the environment: the rest of init works, blade ids are available, persist.nr of a new
      leader can be written, CDH knows the destination, another function refers to the queue, merged parameters
      are valid, the destinations for which the default status is refused. */
  datatype Env = Env(
    up: bool, blades: bool, writes: bool, known: bool, referred: bool, valid: bool, refuses: set<string>)

  /** The entries of a queue, in order. */
  function Named(es: Entries, name: string): Entries {
    if es == [] then [] else (if es[0].name == name then [es[0]] else []) + Named(es[1..], name)
  }

  function Dests(es: Entries, name: string): seq<string> {
    var q := Named(es, name);
    seq(|q|, i requires 0 <= i < |q| => q[i].dest)
  }

  predicate HaveDests(dests: seq<string>) {
    forall d :: d in dests ==> d != ""
  }

  // ---------------------------------------------------------------- the operations

  /** complete, new queue: the destinations one after the other; how many were created. */
  function CreateEach(es: Entries, name: string, dests: seq<string>, a: Attrs, env: Env): (Entries, nat)
    decreases |dests|
  {
    if dests == [] || Refusal(es, name, dests[0], a, env.up, env.blades) != NoError then (es, 0)
    else
      var r := CreateEach(Create(es, name, dests[0], a, env.up, env.blades), name, dests[1..], a, env);
      (r.0, r.1 + 1)
  }

  /** n times removeTransferQueue, or removeSourceDirectoryFiles, of one name. */
  function SweepTimes(es: Entries, name: string, n: nat, referred: bool): Entries
    decreases n
  {
    if n == 0 then es else SweepTimes(if referred then es else Sweep(es, name), name, n - 1, referred)
  }

  /** When the k-th creation fails, the removal is called for the destinations before k-1. */
  function CompleteCreate(es: Entries, name: string, dests: seq<string>, a: Attrs, env: Env): (Entries, Undo) {
    var r := CreateEach(es, name, dests, a, env);
    if r.1 < |dests| then
      (SweepTimes(r.0, name, if r.1 < 2 then 0 else r.1 - 1, env.referred), Nothing)
    else (r.0, RemoveTq(Blocks(name, dests, a)))
  }

  function Blocks(name: string, dests: seq<string>, a: Attrs): (r: seq<Block>)
    ensures |r| == |dests|
  {
    seq(|dests|, i requires 0 <= i < |dests| => Block(name, dests[i], a))
  }

  /** modify, one destination more: it takes the attributes of the first entry. */
  function AddDest(es: Entries, name: string, dest: string, kind: int, env: Env): (Entries, Undo) {
    match Lookup(es, name, "", env.known)
    case None => (es, Nothing)
    case Some(e) =>
      var a := e.attrs.(kind := kind);
      if Refusal(es, e.name, dest, a, env.up, env.blades) != NoError then (es, Nothing)
      else (Create(es, e.name, dest, a, env.up, env.blades), RemoveDestSet(Block(e.name, dest, a)))
  }

  /** handle_removeDestinationSet_OI: refused while files wait or are being sent. */
  function TakeAway(es: Entries, name: string, dest: string, env: Env): Entries {
    var i := FindKey(es, name + "_" + dest);
    if i < 0 || !es[i].world.idle then es else RemoveDest(es, name, dest, env.writes, env.known)
  }

  predicate TakesAway(es: Entries, name: string, dest: string, env: Env) {
    var i := FindKey(es, name + "_" + dest);
    i >= 0 && es[i].world.idle && RemoveCode(es, name, dest, env.writes, env.known) == NoError
  }

  /** modify, one destination less; kind is the type of the modified attribute. */
  function DropDest(es: Entries, name: string, dest: string, kind: int, env: Env): (Entries, Undo) {
    match Lookup(es, name, dest, env.known)
    case None => (es, Nothing)
    case Some(e) =>
      (TakeAway(es, name, dest, env),
       if TakesAway(es, name, dest, env) then CreateTq(Block(e.name, e.dest, e.attrs.(kind := kind))) else Nothing)
  }

  /** deleted: the log has every destination with its type, and the attributes of the first. */
  function DeleteLog(es: Entries, name: string): seq<Block> {
    var q := Named(es, name);
    match FirstNamed(es, name)
    case None => []
    case Some(f) => seq(|q|, i requires 0 <= i < |q| => Block(f.name, q[i].dest, f.attrs.(kind := q[i].attrs.kind)))
  }

  function Delete(es: Entries, name: string, env: Env): (Entries, Undo) {
    if FirstNamed(es, name).None? then (es, Nothing)
    else (if env.referred then es else Sweep(es, name), CreateTqRec(DeleteLog(es, name)))
  }

  /** handle_setTransferQueueAttributes for each destination, up to the first failure. */
  function SetEach(es: Entries, name: string, dests: seq<string>, a: Attrs, change: bool, blades: bool): (Entries, nat)
    decreases |dests|
  {
    if dests == [] then (es, 0)
    else
      var fs := SetOne(es, name, dests[0], a, change, blades);
      if SetOneCode(es, name, dests[0], a, change, blades) != NoError then (fs, 0)
      else var r := SetEach(fs, name, dests[1..], a, change, blades); (r.0, r.1 + 1)
  }

  /** The destinations before the first one whose default status is refused. */
  function Checked(dests: seq<string>, refuses: set<string>): (k: nat)
    ensures k <= |dests| && (forall i :: 0 <= i < k ==> dests[i] !in refuses) && (k < |dests| ==> dests[k] in refuses)
  {
    if dests == [] || dests[0] in refuses then 0 else 1 + Checked(dests[1..], refuses)
  }

  /** complete, changed parameters: a is what the merge with the attributes of the first entry gave. A setting
      that fails forgets the log; a status that is refused keeps it. */
  function CompleteModify(es: Entries, name: string, a: Attrs, change: bool, env: Env): (Entries, Undo) {
    match FirstNamed(es, name)
    case None => (es, Nothing)
    case Some(f) =>
      if !env.valid then (es, Nothing)
      else
        var dests := Dests(es, name);
        var k := Checked(dests, env.refuses);
        var r := SetEach(es, f.name, dests[..k], a, change, env.blades);
        (r.0, if r.1 < k then Nothing else ModifyTq(Blocks(f.name, dests[..k], f.attrs)))
  }

  /** complete returns success. */
  predicate ModifyCompletes(es: Entries, name: string, a: Attrs, change: bool, env: Env) {
    && CompleteModify(es, name, a, change, env).1 != Nothing
    && Checked(Dests(es, name), env.refuses) == |Dests(es, name)|
  }

  // ---------------------------------------------------------------- abort

  function CreateBlocks(es: Entries, blocks: seq<Block>, env: Env): Entries
    decreases |blocks|
  {
    if blocks == [] then es
    else
      var b := blocks[0];
      CreateBlocks(Create(es, b.name, b.dest, b.a, env.up, env.blades), blocks[1..], env)
  }

  function SweepBlocks(es: Entries, blocks: seq<Block>, env: Env): Entries
    decreases |blocks|
  {
    if blocks == [] then es
    else SweepBlocks(if env.referred then es else Sweep(es, blocks[0].name), blocks[1..], env)
  }

  function SetBlocks(es: Entries, blocks: seq<Block>, env: Env): Entries
    decreases |blocks|
  {
    if blocks == [] then es
    else
      var b := blocks[0];
      SetBlocks(SetAttributes(es, b.name, b.dest, b.a, false, env.blades), blocks[1..], env)
  }

  /** abort: whatever the single steps answer, the log is replayed to its end. */
  function Replay(es: Entries, undo: Undo, env: Env): Entries {
    match undo
    case Nothing => es
    case RemoveTq(blocks) => SweepBlocks(es, blocks, env)
    case RemoveDestSet(b) => TakeAway(es, b.name, b.dest, env)
    case CreateTqRec(blocks) => CreateBlocks(es, blocks, env)
    case CreateTq(b) => Create(es, b.name, b.dest, b.a, env.up, env.blades)
    case ModifyTq(blocks) => SetBlocks(es, blocks, env)
  }
}
