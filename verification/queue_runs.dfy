/** What every run of the transfer queue database keeps. */
module QueueRuns {
  import opened QueueEntries
  import opened QueueInvariants
  import opened QueueSettings

  datatype Op =
    | CreateOp(name: string, dest: string, a: Attrs, up: bool, blades: bool)
    | RemoveOp(name: string)
    | RemoveDestOp(name: string, dest: string, writes: bool, known: bool)
    | SetOp(name: string, dest: string, a: Attrs, change: bool, blades: bool)
    | WorldOp(worlds: seq<World>)

  function Perform(es: Entries, op: Op): Entries
    requires op.WorldOp? ==> |op.worlds| == |es|
  {
    match op
    case CreateOp(name, dest, a, up, blades) => Create(es, name, dest, a, up, blades)
    case RemoveOp(name) => Sweep(es, name)
    case RemoveDestOp(name, dest, writes, known) => RemoveDest(es, name, dest, writes, known)
    case SetOp(name, dest, a, change, blades) => SetAttributes(es, name, dest, a, change, blades)
    case WorldOp(worlds) => Faced(es, worlds)
  }

  /** Queue names are plain, and a setting meets the condition under which it keeps the table. Every operation
      may fail. */
  predicate Allowed(es: Entries, op: Op) {
    match op
    case CreateOp(name, _, _, _, _) => '/' !in name
    case SetOp(name, dest, a, change, blades) => Keeps(es, name, dest, a, change, blades)
    case WorldOp(worlds) => |worlds| == |es|
    case _ => true
  }

  /** A setting of any kind keeps the table exactly when it is allowed. */
  lemma SetKeepsExactly(es: Entries, name: string, dest: string, a: Attrs, change: bool, blades: bool)
    requires Table(es)
    ensures Table(SetAttributes(es, name, dest, a, change, blades)) <==> Keeps(es, name, dest, a, change, blades)
  {
    hide Table, SetAll, SetOne, Keeps;
    if dest == "" {
      SetAllKeepsExactly(es, name, a, change, blades);
    } else {
      SetOneKeepsExactly(es, name, dest, a, change, blades);
    }
  }

  lemma StepKeeps(es: Entries, op: Op)
    requires Table(es) && Allowed(es, op)
    ensures Table(Perform(es, op))
  {
    hide Table, Create, RemoveDest, Sweep, SetAttributes, Faced, Keeps;
    match op
    case CreateOp(name, dest, a, up, blades) => CreateKeeps(es, name, dest, a, up, blades);
    case RemoveOp(name) => SweepKeeps(es, name);
    case RemoveDestOp(name, dest, writes, known) => RemoveDestKeeps(es, name, dest, writes, known);
    case SetOp(name, dest, a, change, blades) => SetKeepsExactly(es, name, dest, a, change, blades);
    case WorldOp(worlds) => FacedKeeps(es, worlds);
  }

  ghost predicate AllowedRun(es: Entries, ops: seq<Op>)
    decreases |ops|
  {
    ops == [] || (Allowed(es, ops[0]) && AllowedRun(Perform(es, ops[0]), ops[1..]))
  }

  ghost function Performed(es: Entries, ops: seq<Op>): Entries
    requires AllowedRun(es, ops)
    decreases |ops|
  {
    if ops == [] then es else Performed(Perform(es, ops[0]), ops[1..])
  }

  /** Whatever is created, removed and set, the entries of one queue agree and no destination carries more than
      32 queues, although creation looks only at the first entry. */
  lemma {:induction false} RunAgrees(es: Entries, ops: seq<Op>)
    requires Table(es) && AllowedRun(es, ops)
    ensures Table(Performed(es, ops))
    decreases |ops|
  {
    hide Table, Perform, Keeps;
    if ops != [] {
      StepKeeps(es, ops[0]);
      RunAgrees(Perform(es, ops[0]), ops[1..]);
    }
  }
}
