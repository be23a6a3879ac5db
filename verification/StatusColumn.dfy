/** The same moves in PostgreSQL: one row a member and one status column, and the
    proof that the five Cassandra tables are that column spread out. */
module StatusColumn {
  import opened ByteStrings
  import opened Records
  import opened Decimal
  import opened Store
  import opened Interleaving
  import opened Sequential

  datatype Status = APPLICATION | IN_CREATION | ACTIVE | IN_DELETION | ARCHIVED

  datatype PgRow = PgRow(
    status: Status, approverUid: Option<Bytes>, approvalTimestamp: Option<uint64>,
    goodbyeInitiator: Option<Bytes>, goodbyeReason: Option<Bytes>, goodbyeTimestamp: Option<uint64>)

  type PgTable = map<int, PgRow>

  // ---- the UPDATE statements: no matching row is no error ------------------------------------------

  function SetStatus(t: PgTable, id: int, status: Status): PgTable {
    if id in t then t[id := t[id].(status := status)] else t
  }

  function SetStatusWithInitiator(t: PgTable, id: int, initiator: Bytes, status: Status, now: uint64): PgTable {
    if id in t
    then t[id := t[id].(status := status, approverUid := Some(initiator), approvalTimestamp := Some(now))]
    else t
  }

  function SetGoodbye(t: PgTable, id: int, initiator: Bytes, reason: Bytes, now: uint64): PgTable {
    if id in t
    then t[id := t[id].(status := IN_DELETION, goodbyeInitiator := Some(initiator), goodbyeReason := Some(reason),
                        goodbyeTimestamp := Some(now))]
    else t
  }

  /** An id is the text of a 64-bit number, and names that row. */
  ghost predicate IsId(id: string) {
    exists n: int64 :: SpellsInt(id, n)
  }

  lemma IdNamesOneRow(id: string)
    ensures ParseInt(id).Some? <==> IsId(id)
    ensures ParseInt(id).Some? ==> forall n :: SpellsInt(id, n) <==> n == ParseInt(id).value
  {
    if ParseInt(id).Some? { ParseIntIff(id, ParseInt(id).value); }
    if n: int64 :| SpellsInt(id, n) { ParseIntIff(id, n); }
    if ParseInt(id).Some? {
      forall n ensures SpellsInt(id, n) <==> n == ParseInt(id).value { ParseSignedIff(id, n); }
    }
  }

  /** At most row `n` has changed. */
  predicate OnlyRow(t: PgTable, u: PgTable, n: int) {
    u.Keys == t.Keys && forall q :: q in t && q != n ==> u[q] == t[q]
  }

  /** The status and audit columns of the members table; ids come in as decimal text. */
  class PostgreSQLDB {
    var members: PgTable

    constructor ()
      ensures members == map[]
    {
      members := map[];
    }

    method MoveMemberToTrash(id: string, initiator: Bytes, reason: Bytes, now: uint64, fails: bool)
      returns (r: Result<()>)
      modifies this
      ensures r.Ok? <==> ParseInt(id).Some? && !fails
      ensures members == if r.Ok? then SetGoodbye(old(members), ParseInt(id).value, initiator, reason, now)
                         else old(members)
      ensures r.Ok? <==> IsId(id) && !fails
      ensures r.Err? ==> r.error == Internal
      ensures r.Ok? ==> forall n :: SpellsInt(id, n) ==>
                          && OnlyRow(old(members), members, n)
                          && (n in members ==>
                                var was := old(members)[n];
                                members[n] == PgRow(IN_DELETION, was.approverUid, was.approvalTimestamp,
                                                    Some(initiator), Some(reason), Some(now)))
    {
      IdNamesOneRow(id);
      var intId := ParseInt(id);
      if intId.None? || fails { return Err(Internal); }
      if intId.value in members {
        var row := members[intId.value];
        row := row.(status := IN_DELETION, goodbyeInitiator := Some(initiator), goodbyeReason := Some(reason));
        members := members[intId.value := row.(goodbyeTimestamp := Some(now))];
      }
      r := Ok(());
    }

    method UpdateMemberStatus(key: string, status: Status, fails: bool) returns (r: Result<()>)
      modifies this
      ensures r.Ok? <==> ParseInt(key).Some? && !fails
      ensures members == if r.Ok? then SetStatus(old(members), ParseInt(key).value, status) else old(members)
      ensures r.Ok? <==> IsId(key) && !fails
      ensures r.Err? ==> r.error == Internal
      ensures r.Ok? ==> forall n :: SpellsInt(key, n) ==>
                          && OnlyRow(old(members), members, n)
                          && (n in members ==>
                                var was := old(members)[n];
                                members[n] == PgRow(status, was.approverUid, was.approvalTimestamp,
                                                    was.goodbyeInitiator, was.goodbyeReason, was.goodbyeTimestamp))
    {
      IdNamesOneRow(key);
      var intId := ParseInt(key);
      if intId.None? || fails { return Err(Internal); }
      if intId.value in members { members := members[intId.value := members[intId.value].(status := status)]; }
      r := Ok(());
    }

    method UpdateMemberStatusWithInitiator(id: string, initiator: Bytes, status: Status, now: uint64, fails: bool)
      returns (r: Result<()>)
      modifies this
      ensures r.Ok? <==> ParseInt(id).Some? && !fails
      ensures members == if r.Ok? then SetStatusWithInitiator(old(members), ParseInt(id).value, initiator, status, now)
                         else old(members)
      ensures r.Ok? <==> IsId(id) && !fails
      ensures r.Err? ==> r.error == Internal
      ensures r.Ok? ==> forall n :: SpellsInt(id, n) ==>
                          && OnlyRow(old(members), members, n)
                          && (n in members ==>
                                var was := old(members)[n];
                                members[n] == PgRow(status, Some(initiator), Some(now),
                                                    was.goodbyeInitiator, was.goodbyeReason, was.goodbyeTimestamp))
    {
      IdNamesOneRow(id);
      var intId := ParseInt(id);
      if intId.None? || fails { return Err(Internal); }
      if intId.value in members {
        var row := members[intId.value].(status := status);
        row := row.(approverUid := Some(initiator), approvalTimestamp := Some(now));
        members := members[intId.value := row];
      }
      r := Ok(());
    }
  }

  /** Each UPDATE changes the columns it names and no other, in at most the one row. */
  lemma UpdatesOneRow(t: PgTable, n: int, initiator: Bytes, reason: Bytes, status: Status, now: uint64)
    ensures OnlyRow(t, SetStatus(t, n, status), n) && OnlyRow(t, SetGoodbye(t, n, initiator, reason, now), n)
    ensures OnlyRow(t, SetStatusWithInitiator(t, n, initiator, status, now), n)
    ensures n in t ==>
              var was := t[n];
              && SetStatus(t, n, status)[n]
                 == PgRow(status, was.approverUid, was.approvalTimestamp,
                          was.goodbyeInitiator, was.goodbyeReason, was.goodbyeTimestamp)
              && SetStatusWithInitiator(t, n, initiator, status, now)[n]
                 == PgRow(status, Some(initiator), Some(now),
                          was.goodbyeInitiator, was.goodbyeReason, was.goodbyeTimestamp)
              && SetGoodbye(t, n, initiator, reason, now)[n]
                 == PgRow(IN_DELETION, was.approverUid, was.approvalTimestamp, Some(initiator), Some(reason), Some(now))
  {
  }

  // ---- refinement ------------------------------------------------------------------------------

  function StatusOf(t: Table): Status {
    match t
    case Application => APPLICATION
    case Queue => IN_CREATION
    case Members => ACTIVE
    case Dequeue => IN_DELETION
    case Archive => ARCHIVED
  }

  /** The matching UPDATE; uploads and edits leave status and audit columns alone. */
  function PgOp(t: PgTable, q: Person, op: Op): PgTable {
    match op
    case Approve(_, initiator, now) => SetStatusWithInitiator(t, q, initiator, IN_CREATION, now)
    case RejectApplicant(_, initiator, now) => SetStatusWithInitiator(t, q, initiator, ARCHIVED, now)
    case CancelQueued(_, initiator, now) => SetStatusWithInitiator(t, q, initiator, ARCHIVED, now)
    case PromoteQueued(_, _) => SetStatus(t, q, ACTIVE)
    case Goodbye(_, initiator, reason, now, _) => SetGoodbye(t, q, initiator, reason, now)
    case ArchiveDeparted(_) => SetStatus(t, q, ARCHIVED)
    case Upload(_, _) => t
    case EditMember(_, _) => t
  }

  /** The audit columns, wherever Cassandra still has them: approval up to the queue and on
      records archived from there, goodbye in the departing queue. */
  predicate AuditMatches(l: Loc, pbData: Blob, p: PgRow) {
    pbData.AgreementBlob? && pbData.agreement.metadata.Some? ==>
      var md := pbData.agreement.metadata.value;
      && (l.table != Members && l.table != Dequeue ==>
            md.approverUid == p.approverUid && md.approvalTimestamp == p.approvalTimestamp)
      && (l.table == Dequeue ==>
            md.goodbyeInitiator == p.goodbyeInitiator && md.goodbyeReason == p.goodbyeReason
            && md.goodbyeTimestamp == p.goodbyeTimestamp)
  }

  /** The record a batch leaves has the audit columns of its person's row. */
  predicate AuditKept(b: Batch, t: PgTable) {
    b.person in t && AuditMatches(Target(b), b.pbData, t[b.person])
  }

  predicate RowMatches(l: Loc, row: Row, t: PgTable) {
    row.person in t && t[row.person].status == StatusOf(l.table) && AuditMatches(l, row.pbData, t[row.person])
  }

  /** The tables stand for the status column: the same people, each row's table giving its status. */
  ghost predicate Refines(w: World, t: PgTable) {
    && (forall q: int :: q in t <==> q >= 0 && q in w.emails)
    && (forall l :: l in w.store.rows ==> RowMatches(l, w.store.rows[l], t))
  }

  lemma OtherRowsStillMatch(t: PgTable, u: PgTable, q: Person, l: Loc, row: Row)
    requires RowMatches(l, row, t) && row.person != q
    requires forall p :: p in t && p != q ==> p in u && u[p] == t[p]
    ensures RowMatches(l, row, u)
  {
  }

  /** An approval, rejection or cancellation leaves the same approver and time in blob and columns. */
  lemma ApprovalMatches(parse: Parser, w: World, t: PgTable, op: Op)
    requires Inv(w) && Refines(w, t) && Prepare(parse, w.store, op).Ok?
    requires op.Approve? || op.RejectApplicant? || op.CancelQueued?
    ensures var b := Prepare(parse, w.store, op).value;
            AuditKept(b, PgOp(t, b.person, op))
  {
    assert RowMatches(Origin(op), w.store.rows[Origin(op)], t);
  }

  lemma GoodbyeMatches(parse: Parser, w: World, t: PgTable, op: Op)
    requires Inv(w) && Refines(w, t) && Prepare(parse, w.store, op).Ok? && op.Goodbye?
    ensures var b := Prepare(parse, w.store, op).value;
            AuditKept(b, PgOp(t, b.person, op))
  {
    assert RowMatches(Origin(op), w.store.rows[Origin(op)], t);
  }

  lemma UploadMatches(parse: Parser, w: World, t: PgTable, op: Op)
    requires Inv(w) && Refines(w, t) && Prepare(parse, w.store, op).Ok? && op.Upload?
    ensures AuditKept(Prepare(parse, w.store, op).value, t)
  {
    assert RowOk(w, Origin(op), w.store.rows[Origin(op)]);
    assert RowMatches(Origin(op), w.store.rows[Origin(op)], t);
  }

  lemma PgOpStatus(t: PgTable, q: Person, op: Op)
    requires q in t
    ensures q in PgOp(t, q, op)
    ensures PgOp(t, q, op)[q].status == if Moves(op) then StatusOf(Destination(op)) else t[q].status
  {
  }

  lemma BatchMatchesAudit(parse: Parser, w: World, t: PgTable, op: Op)
    requires Inv(w) && Refines(w, t) && Prepare(parse, w.store, op).Ok?
    ensures var b := Prepare(parse, w.store, op).value;
            AuditKept(b, PgOp(t, b.person, op))
  {
    if op.Approve? || op.RejectApplicant? || op.CancelQueued? {
      ApprovalMatches(parse, w, t, op);
    } else if op.Goodbye? {
      GoodbyeMatches(parse, w, t, op);
    } else if op.Upload? {
      UploadMatches(parse, w, t, op);
    } else {
      assert RowMatches(Origin(op), w.store.rows[Origin(op)], t);
    }
  }

  /** What each prepared batch carries is what the matching UPDATE leaves. */
  lemma BatchMatchesUpdate(parse: Parser, w: World, t: PgTable, op: Op)
    requires Inv(w) && Refines(w, t) && Prepare(parse, w.store, op).Ok?
    ensures var b := Prepare(parse, w.store, op).value; var u := PgOp(t, b.person, op);
            AuditKept(b, u) && u[b.person].status == StatusOf(Target(b).table)
  {
    var b := Prepare(parse, w.store, op).value;
    BatchMatchesAudit(parse, w, t, op);
    PgOpStatus(t, b.person, op);
    assert RowMatches(Origin(op), w.store.rows[Origin(op)], t);
  }

  /** Of the audit columns, moves by hand change approver and time, a goodbye its own three, and all else none. */
  lemma PgOpAudits(t: PgTable, q: Person, op: Op)
    requires q in t
    ensures var was := t[q]; var p := PgOp(t, q, op)[q];
            && ((p.approverUid, p.approvalTimestamp)
                == match op {
                     case Approve(_, initiator, now) => (Some(initiator), Some(now))
                     case RejectApplicant(_, initiator, now) => (Some(initiator), Some(now))
                     case CancelQueued(_, initiator, now) => (Some(initiator), Some(now))
                     case _ => (was.approverUid, was.approvalTimestamp)
                   })
            && ((p.goodbyeInitiator, p.goodbyeReason, p.goodbyeTimestamp)
                == match op {
                     case Goodbye(_, initiator, reason, now, _) => (Some(initiator), Some(reason), Some(now))
                     case _ => (was.goodbyeInitiator, was.goodbyeReason, was.goodbyeTimestamp)
                   })
  {
  }

  lemma PgOpFrame(t: PgTable, q: Person, op: Op)
    ensures forall p :: p in PgOp(t, q, op) <==> p in t
    ensures forall p :: p in t && p != q ==> PgOp(t, q, op)[p] == t[p]
  {
  }

  lemma CarriedRefines(w: World, v: World, b: Batch, moved: bool, t: PgTable, u: PgTable)
    requires Refines(w, t) && Carried(w.store, v.store, b, moved) && OnePlaceEach(w.store) && v.emails == w.emails
    requires (forall p :: p in u <==> p in t) && forall p :: p in t && p != b.person ==> u[p] == t[p]
    requires AuditKept(b, u) && u[b.person].status == StatusOf(Target(b).table)
    ensures Refines(v, u)
  {
    forall l | l in v.store.rows ensures RowMatches(l, v.store.rows[l], u) {
      if l != Target(b) {
        assert v.store.rows[l] == w.store.rows[l] && RowMatches(l, w.store.rows[l], t);
        OtherRowsStillMatch(t, u, b.person, l, w.store.rows[l]);
      }
    }
  }

  /** Every operation, run without interference, commutes with the matching UPDATE when it succeeds
      and leaves the abstract table alone when it fails. */
  lemma MovesCommuteWithStatus(parse: Parser, w: World, t: PgTable, op: Op)
    requires SeqInv(parse, w) && Refines(w, t) && Admissible(w, Begin(op))
    ensures match Prepare(parse, w.store, op) {
              case Ok(b) => Refines(Atomically(parse, w, op), PgOp(t, b.person, op))
              case Err(_) => Refines(Atomically(parse, w, op), t)
            }
  {
    match Prepare(parse, w.store, op)
    case Err(_) =>
    case Ok(b) =>
      var u := PgOp(t, b.person, op);
      OperationMovesOneRow(parse, w, op);
      BatchMatchesUpdate(parse, w, t, op);
      PgOpFrame(t, b.person, op);
      CarriedRefines(w, Atomically(parse, w, op), b, Moves(op), t, u);
  }

  // ---- whole runs ------------------------------------------------------------------------------

  const NEW_ROW := PgRow(APPLICATION, None, None, None, None, None)

  /** The request as the form leaves it: nobody has approved it yet. */
  predicate FromForm(c: Command) {
    c.Request? ==> c.metadata.approverUid.None? && c.metadata.approvalTimestamp.None?
  }

  function PgNext(parse: Parser, w: World, t: PgTable, c: Command): PgTable {
    match c
    case Request(person, uuid, member, metadata, now) =>
      if PrepareRequest(person, uuid, member, metadata, now).Ok? then t[person := NEW_ROW] else t
    case Perform(op) =>
      match Prepare(parse, w.store, op)
      case Ok(b) => PgOp(t, b.person, op)
      case Err(_) => t
  }

  /** The PostgreSQL table after the UPDATEs matching a run's successful commands. */
  function PgRun(parse: Parser, cs: seq<Command>): PgTable {
    if cs == [] then map[]
    else PgNext(parse, RunAll(parse, cs[..|cs| - 1]), PgRun(parse, cs[..|cs| - 1]), cs[|cs| - 1])
  }

  lemma RequestMatchesInsert(parse: Parser, w: World, t: PgTable, c: Command)
    requires Inv(w) && Refines(w, t) && c.Request? && AdmissibleCommand(w, c) && FromForm(c)
    ensures Refines(Next(parse, w, c), PgNext(parse, w, t, c))
  {
    var v, u := Next(parse, w, c), PgNext(parse, w, t, c);
    forall l | l in v.store.rows ensures RowMatches(l, v.store.rows[l], u) {
      if l in w.store.rows {
        assert RowOk(w, l, w.store.rows[l]) && RowMatches(l, w.store.rows[l], t);
      }
    }
  }

  /** Over whole runs the tables and the status column tell the same story. */
  lemma {:induction false} RunsRefineStatus(parse: Parser, cs: seq<Command>)
    requires AdmissibleCommands(parse, cs) && forall c :: c in cs ==> FromForm(c)
    ensures Refines(RunAll(parse, cs), PgRun(parse, cs))
  {
    if cs == [] {
    } else {
      var n := |cs| - 1;
      var w, t := RunAll(parse, cs[..n]), PgRun(parse, cs[..n]);
      RunsRefineStatus(parse, cs[..n]);
      SequentialInv(parse, cs[..n]);
      if cs[n].Request? {
        RequestMatchesInsert(parse, w, t, cs[n]);
      } else {
        MovesCommuteWithStatus(parse, w, t, cs[n].op);
      }
    }
  }
}
