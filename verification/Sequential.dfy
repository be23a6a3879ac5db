/** Operations one at a time: the read step and its batch back to back. */
module Sequential {
  import opened ByteStrings
  import opened Records
  import opened Store
  import opened Interleaving
  import opened Edits

  /** One operation without interference. A promotion or an archiving is given a record that is
      still in its queue, since the enumeration that hands it out is its read step. */
  function Atomically(parse: Parser, w: World, op: Op): World {
    match Prepare(parse, w.store, op)
    case Err(_) => w
    case Ok(b) => w.(store := Apply(w.store, b), uuids := Registered(w, op, b.person))
  }

  /** It is one of the interleavings: begin, execute, drop. */
  lemma AtomicallyIsAnInterleaving(parse: Parser, w: World, op: Op)
    requires w.pending == {}
    ensures Prepare(parse, w.store, op).Ok? ==>
              var b := Prepare(parse, w.store, op).value;
              Atomically(parse, w, op) == Do(parse, Do(parse, Do(parse, w, Begin(op)), Execute(b)), Drop(b))
    ensures Prepare(parse, w.store, op).Err? ==> Atomically(parse, w, op) == w == Do(parse, w, Begin(op))
  {
    if Prepare(parse, w.store, op).Ok? {
      var b := Prepare(parse, w.store, op).value;
      assert w.pending + {b} - {b} == w.pending;
    }
  }

  datatype Command =
    | Request(person: Person, uuid: Bytes, member: Member, metadata: Metadata, now: uint64)
    | Perform(op: Op)

  function ToStep(c: Command): Step {
    match c
    case Request(person, uuid, member, metadata, now) => Submit(person, uuid, member, metadata, now)
    case Perform(op) => Begin(op)
  }

  function Next(parse: Parser, w: World, c: Command): World {
    match c
    case Request(_, _, _, _, _) => Do(parse, w, ToStep(c)).(pending := w.pending)
    case Perform(op) => Atomically(parse, w, op)
  }

  function RunAll(parse: Parser, cs: seq<Command>): World {
    if cs == [] then INIT else Next(parse, RunAll(parse, cs[..|cs| - 1]), cs[|cs| - 1])
  }

  /** For one place a person, nobody applies twice. */
  predicate AdmissibleCommand(w: World, c: Command) {
    Admissible(w, ToStep(c)) && (c.Request? ==> c.person !in w.emails)
  }

  predicate AdmissibleCommands(parse: Parser, cs: seq<Command>) {
    cs == [] ||
    (AdmissibleCommands(parse, cs[..|cs| - 1]) && AdmissibleCommand(RunAll(parse, cs[..|cs| - 1]), cs[|cs| - 1]))
  }

  /** So a sequential run is an interleaving, and what holds of every interleaving holds of it. */
  lemma {:induction false} SequentialRunsAreInterleavings(parse: Parser, cs: seq<Command>) returns (steps: seq<Step>)
    ensures Run(parse, steps) == RunAll(parse, cs) && (AdmissibleCommands(parse, cs) ==> AdmissibleRun(parse, steps))
    ensures Run(parse, steps).pending == {}
  {
    if cs == [] {
      steps := [];
    } else {
      var n := |cs| - 1;
      steps := SequentialRunsAreInterleavings(parse, cs[..n]);
      var w := Run(parse, steps);
      RunPlus(parse, steps, ToStep(cs[n]));
      match cs[n]
      case Request(person, uuid, member, metadata, now) =>
        var r := PrepareRequest(person, uuid, member, metadata, now);
        steps := steps + [ToStep(cs[n])];
        if r.Ok? {
          assert w.pending + {r.value} - {r.value} == w.pending;
          RunPlus(parse, steps, Drop(r.value));
          steps := steps + [Drop(r.value)];
        }
      case Perform(op) =>
        AtomicallyIsAnInterleaving(parse, w, op);
        steps := steps + [Begin(op)];
        var r := Prepare(parse, w.store, op);
        if r.Ok? {
          RunPlus(parse, steps, Execute(r.value));
          RunPlus(parse, steps + [Execute(r.value)], Drop(r.value));
          steps := steps + [Execute(r.value)] + [Drop(r.value)];
        }
    }
  }

  // ---- exactly one place, and columns that agree with the blob ----------------------------------

  ghost predicate OnePlaceEach(s: Store) {
    forall k, l :: k in s.rows && l in s.rows && s.rows[k].person == s.rows[l].person ==> k == l
  }

  ghost predicate Consistent(parse: Parser, s: Store) {
    forall l :: l in s.rows && l.table == Members ==> ColumnsAgree(parse, s.rows[l])
  }

  ghost predicate SeqInv(parse: Parser, w: World) {
    Inv(w) && w.pending == {} && OnePlaceEach(w.store) && Consistent(parse, w.store)
  }

  /** `t` is `s` with the one row of the batch's person carried from source to target, under the batch's blob;
      a row that moves leaves its columns behind. */
  ghost predicate Carried(s: Store, t: Store, b: Batch, moved: bool) {
    && Source(b) in s.rows && s.rows[Source(b)].person == b.person
    && t.rows.Keys == s.rows.Keys - {Source(b)} + {Target(b)}
    && t.rows[Target(b)].person == b.person && t.rows[Target(b)].pbData == b.pbData
    && (forall l :: l in s.rows && l != Source(b) ==> t.rows[l] == s.rows[l])
    && (if moved
        then Rank(Source(b).table) < Rank(Target(b).table) && Target(b) !in s.rows && t.rows[Target(b)].columns == map[]
        else Source(b) == Target(b))
  }

  lemma BatchKeys(s: Store, b: Batch)
    requires Source(b) in s.rows && (b.Move? ==> b.src != b.dst)
    ensures Apply(s, b).rows.Keys == s.rows.Keys - {Source(b)} + {Target(b)}
    ensures Apply(s, b).rows[Target(b)].person == b.person && Apply(s, b).rows[Target(b)].pbData == b.pbData
  {
  }

  /** A well-formed batch whose source is its person's only row carries that row to the target,
      writes its blob there, and touches nothing else. */
  lemma BatchMovesOneRow(w: World, b: Batch)
    requires Inv(w) && OnePlaceEach(w.store) && BatchOk(w, b)
    requires Source(b) in w.store.rows && w.store.rows[Source(b)].person == b.person
    ensures Carried(w.store, Apply(w.store, b), b, b.Promote? || b.Move?)
  {
    BatchKeys(w.store, b);
    forall l | l in w.store.rows && l != Source(b)
      ensures l in Apply(w.store, b).rows && Apply(w.store, b).rows[l] == w.store.rows[l]
    {
      BatchFrame(w, b, l);
    }
    if Target(b) in w.store.rows {
      OwnerIsUnique(w, Target(b), w.store.rows[Target(b)].person, b.person);
    }
  }

  /** The same of a whole operation; only uploads and edits leave the row in its place, every other success
      raises its rank. */
  lemma OperationMovesOneRow(parse: Parser, w: World, op: Op)
    requires Inv(w) && OnePlaceEach(w.store) && Admissible(w, Begin(op)) && Prepare(parse, w.store, op).Ok?
    ensures Carried(w.store, Atomically(parse, w, op).store, Prepare(parse, w.store, op).value, Moves(op))
  {
    var b := Prepare(parse, w.store, op).value;
    var v := w.(uuids := Registered(w, op, b.person));
    PreparedIsOk(parse, w, op);
    GrowthKeepsInv(w, v);
    BatchMovesOneRow(v, b);
  }

  lemma CarriedKeepsOnePlace(s: Store, t: Store, b: Batch, moved: bool)
    requires OnePlaceEach(s) && Carried(s, t, b, moved)
    ensures OnePlaceEach(t)
  {
  }

  lemma CarriedKeepsColumns(parse: Parser, s: Store, t: Store, b: Batch, moved: bool)
    requires Consistent(parse, s) && Carried(s, t, b, moved)
    requires Target(b).table == Members ==> ColumnsAgree(parse, t.rows[Target(b)])
    ensures Consistent(parse, t)
  {
    forall l | l in t.rows && l.table == Members ensures ColumnsAgree(parse, t.rows[l]) {
      if l != Target(b) { assert t.rows[l] == s.rows[l]; }
    }
  }

  // ---- every sequential run --------------------------------------------------------------------

  lemma AtomicallyKeepsInv(parse: Parser, w: World, op: Op)
    requires Inv(w) && w.pending == {} && Admissible(w, Begin(op))
    ensures Inv(Atomically(parse, w, op)) && Atomically(parse, w, op).pending == {}
  {
    AtomicallyIsAnInterleaving(parse, w, op);
    if Prepare(parse, w.store, op).Ok? {
      var b := Prepare(parse, w.store, op).value;
      var v := Do(parse, w, Begin(op));
      StepKeepsInv(parse, w, Begin(op));
      StepKeepsInv(parse, v, Execute(b));
      StepKeepsInv(parse, Do(parse, v, Execute(b)), Drop(b));
    }
  }

  /** A promotion finds the member key free, so its row starts without columns; an edit keeps them in step. */
  lemma OperationKeepsColumns(parse: Parser, w: World, op: Op)
    requires SeqInv(parse, w) && Admissible(w, Begin(op)) && Prepare(parse, w.store, op).Ok?
    ensures Consistent(parse, Atomically(parse, w, op).store)
  {
    var b := Prepare(parse, w.store, op).value;
    var s := Apply(w.store, b);
    OperationMovesOneRow(parse, w, op);
    if b.Rewrite? {
      EditKeepsColumns(parse, w.store, op.email, op.edit);
    } else if b.Promote? {
      assert s.rows[Target(b)].columns == map[];
    } else {
      PreparedIsOk(parse, w, op);
    }
    CarriedKeepsColumns(parse, w.store, s, b, Moves(op));
  }

  lemma RequestKeepsOnePlace(parse: Parser, w: World, c: Command, k: Loc, l: Loc)
    requires Inv(w) && OnePlaceEach(w.store) && c.Request? && AdmissibleCommand(w, c)
    requires var s := Next(parse, w, c).store; k in s.rows && l in s.rows && s.rows[k].person == s.rows[l].person
    ensures k == l
  {
    if k in w.store.rows { assert RowOk(w, k, w.store.rows[k]); }
    if l in w.store.rows { assert RowOk(w, l, w.store.rows[l]); }
  }

  lemma RequestKeepsInv(parse: Parser, w: World, c: Command)
    requires Inv(w) && c.Request? && Admissible(w, ToStep(c))
    ensures Inv(Next(parse, w, c))
  {
    var u := Do(parse, w, ToStep(c));
    SubmitKeepsInv(parse, w, ToStep(c));
    FewerPendingKeepsInv(u, w.pending);
  }

  lemma RequestAddsNoMember(parse: Parser, w: World, c: Command, l: Loc)
    requires c.Request? && l in Next(parse, w, c).store.rows && l.table == Members
    ensures l in w.store.rows && Next(parse, w, c).store.rows[l] == w.store.rows[l]
  {
  }

  lemma RequestKeepsSeqInv(parse: Parser, w: World, c: Command)
    requires SeqInv(parse, w) && c.Request? && AdmissibleCommand(w, c)
    ensures SeqInv(parse, Next(parse, w, c))
  {
    var s := Next(parse, w, c).store;
    RequestKeepsInv(parse, w, c);
    forall k, l | k in s.rows && l in s.rows && s.rows[k].person == s.rows[l].person ensures k == l {
      RequestKeepsOnePlace(parse, w, c, k, l);
    }
    forall l | l in s.rows && l.table == Members ensures ColumnsAgree(parse, s.rows[l]) {
      RequestAddsNoMember(parse, w, c, l);
    }
  }

  lemma NextKeepsSeqInv(parse: Parser, w: World, c: Command)
    requires SeqInv(parse, w) && AdmissibleCommand(w, c)
    ensures SeqInv(parse, Next(parse, w, c))
  {
    if c.Request? {
      RequestKeepsSeqInv(parse, w, c);
    } else if Prepare(parse, w.store, c.op).Ok? {
      AtomicallyKeepsInv(parse, w, c.op);
      OperationMovesOneRow(parse, w, c.op);
      CarriedKeepsOnePlace(w.store, Atomically(parse, w, c.op).store, Prepare(parse, w.store, c.op).value, Moves(c.op));
      OperationKeepsColumns(parse, w, c.op);
    }
  }

  lemma {:induction false} SequentialInv(parse: Parser, cs: seq<Command>)
    requires AdmissibleCommands(parse, cs)
    ensures SeqInv(parse, RunAll(parse, cs))
  {
    if cs == [] {
    } else {
      var n := |cs| - 1;
      SequentialInv(parse, cs[..n]);
      NextKeepsSeqInv(parse, RunAll(parse, cs[..n]), cs[n]);
    }
  }

  /** One at a time, everyone who ever applied is in exactly one place. */
  lemma ExactlyOnePlace(parse: Parser, cs: seq<Command>, q: Person) returns (loc: Loc)
    requires AdmissibleCommands(parse, cs) && q in RunAll(parse, cs).emails
    ensures loc in RunAll(parse, cs).store.rows && RunAll(parse, cs).store.rows[loc].person == q
    ensures forall k :: k in RunAll(parse, cs).store.rows && RunAll(parse, cs).store.rows[k].person == q ==> k == loc
  {
    SequentialInv(parse, cs);
    var s := RunAll(parse, cs).store;
    assert Present(s, q, 0);
    loc :| loc in s.rows && s.rows[loc].person == q;
  }

  /** And in every member row the non-null columns agree with the blob. */
  lemma ColumnsAlwaysAgree(parse: Parser, cs: seq<Command>, email: Bytes)
    requires AdmissibleCommands(parse, cs) && Loc(Members, email) in RunAll(parse, cs).store.rows
    ensures ColumnsAgree(parse, RunAll(parse, cs).store.rows[Loc(Members, email)])
  {
    SequentialInv(parse, cs);
  }

  /** Whether a command is a successful move of `q`. */
  function Counted(parse: Parser, w: World, c: Command, q: Person): nat {
    if c.Perform? && Moves(c.op) && Prepare(parse, w.store, c.op).Ok? && Prepare(parse, w.store, c.op).value.person == q
    then 1 else 0
  }

  /** How many successful moves of `q` a run holds. */
  function MoveCount(parse: Parser, cs: seq<Command>, q: Person): nat {
    if cs == [] then 0
    else
      var n := |cs| - 1;
      MoveCount(parse, cs[..n], q) + Counted(parse, RunAll(parse, cs[..n]), cs[n], q)
  }

  /** Whatever row `q` has is at rank `count` at least, and before `q` has one there is nothing to count. */
  ghost predicate HasRank(w: World, q: Person, count: nat) {
    && (forall l :: l in w.store.rows && w.store.rows[l].person == q ==> count <= Rank(l.table))
    && (q !in w.emails ==> count == 0) && count <= 4
  }

  /** Each successful move strictly raises the rank, so nobody is moved more often than
      the rank of where they are, and nobody more than four times. */
  lemma {:induction false} MovesAreBounded(parse: Parser, cs: seq<Command>, q: Person)
    requires AdmissibleCommands(parse, cs)
    ensures HasRank(RunAll(parse, cs), q, MoveCount(parse, cs, q))
  {
    if cs == [] {
    } else {
      var n := |cs| - 1;
      MovesAreBounded(parse, cs[..n], q);
      SequentialInv(parse, cs[..n]);
      NextRaisesRank(parse, RunAll(parse, cs[..n]), cs[n], q, MoveCount(parse, cs[..n], q));
    }
  }

  lemma NextRaisesRank(parse: Parser, w: World, c: Command, q: Person, count: nat)
    requires SeqInv(parse, w) && AdmissibleCommand(w, c) && HasRank(w, q, count)
    ensures HasRank(Next(parse, w, c), q, count + Counted(parse, w, c, q))
  {
    if c.Request? {
      RequestKeepsRanks(parse, w, c, q, count);
    } else if Prepare(parse, w.store, c.op).Ok? {
      var b := Prepare(parse, w.store, c.op).value;
      OperationMovesOneRow(parse, w, c.op);
      assert RowOk(w, Source(b), w.store.rows[Source(b)]);
      CarriedRaisesRank(w.store, Apply(w.store, b), b, Moves(c.op), q, count);
    }
  }

  lemma RequestKeepsRanks(parse: Parser, w: World, c: Command, q: Person, count: nat)
    requires SeqInv(parse, w) && c.Request? && AdmissibleCommand(w, c) && HasRank(w, q, count)
    ensures HasRank(Next(parse, w, c), q, count)
  {
    var v := Next(parse, w, c);
    forall l | l in v.store.rows && v.store.rows[l].person == q ensures count <= Rank(l.table) {
      if l in w.store.rows { assert RowOk(w, l, w.store.rows[l]); }
    }
  }

  lemma CarriedRaisesRank(s: Store, t: Store, b: Batch, moved: bool, q: Person, count: nat)
    requires Carried(s, t, b, moved) && OnePlaceEach(s) && count <= 4
    requires forall l :: l in s.rows && s.rows[l].person == q ==> count <= Rank(l.table)
    ensures var after := count + if moved && b.person == q then 1 else 0;
            (forall l :: l in t.rows && t.rows[l].person == q ==> after <= Rank(l.table)) && after <= 4
  {
    if moved && b.person == q {
      assert count <= Rank(Source(b).table) < Rank(Target(b).table) <= 4;
    }
  }

  lemma NextKeepsArchive(parse: Parser, w: World, c: Command, l: Loc)
    requires SeqInv(parse, w) && AdmissibleCommand(w, c) && l in w.store.rows && l.table == Archive
    ensures l in Next(parse, w, c).store.rows && Next(parse, w, c).store.rows[l] == w.store.rows[l]
  {
    if c.Perform? && Prepare(parse, w.store, c.op).Ok? {
      OperationMovesOneRow(parse, w, c.op);
      PreparedIsOk(parse, w, c.op);
    }
  }

  /** The archive is final: an archived row is the same in every continuation of a run. */
  lemma {:induction false} ArchiveIsFinal(parse: Parser, cs: seq<Command>, n: nat, l: Loc)
    requires n <= |cs| && AdmissibleCommands(parse, cs) && l.table == Archive
    requires l in RunAll(parse, cs[..n]).store.rows
    ensures l in RunAll(parse, cs).store.rows
    ensures RunAll(parse, cs).store.rows[l] == RunAll(parse, cs[..n]).store.rows[l]
  {
    var m := |cs| - 1;
    if n == |cs| {
      assert cs[..n] == cs;
    } else {
      assert cs[..m][..n] == cs[..n];
      ArchiveIsFinal(parse, cs[..m], n, l);
      SequentialInv(parse, cs[..m]);
      NextKeepsArchive(parse, RunAll(parse, cs[..m]), cs[m], l);
    }
  }
}
