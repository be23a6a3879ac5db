/** Any number of clients at once: each operation reads and prepares its batch in one step, and
    its batch is executed in another, with anything in between. */
module Interleaving {
  import opened ByteStrings
  import opened Records
  import opened Store

  /** The store, the batches clients have prepared but may still execute, and two records of the
      past: whose each uuid ever generated is, and the email of everyone who ever applied. */
  datatype World = World(store: Store, pending: set<Batch>, uuids: map<Bytes, Person>, emails: map<Person, Bytes>)

  const INIT := World(EMPTY_STORE, {}, map[], map[])

  /** Execute leaves the batch pending, since the driver's retry policy may send it again until
      its call ends; Drop is that end, with or without success. */
  datatype Step =
    | Submit(person: Person, uuid: Bytes, member: Member, metadata: Metadata, now: uint64)
    | Begin(op: Op)
    | Execute(batch: Batch)
    | Drop(batch: Batch)

  function Registered(w: World, op: Op, person: Person): map<Bytes, Person> {
    if op.Goodbye? then w.uuids[op.uuid := person] else w.uuids
  }

  /** A read step that fails, and a batch that fails, change nothing. */
  function Do(parse: Parser, w: World, step: Step): World {
    match step
    case Submit(person, uuid, member, metadata, now) =>
      (match PrepareRequest(person, uuid, member, metadata, now)
       case Err(_) => w
       case Ok(b) => World(Apply(w.store, b), w.pending + {b}, w.uuids[uuid := person],
                           w.emails[person := member.GetEmail()]))
    case Begin(op) =>
      (match Prepare(parse, w.store, op)
       case Err(_) => w
       case Ok(b) => w.(pending := w.pending + {b}, uuids := Registered(w, op, b.person)))
    case Execute(b) => if b in w.pending then w.(store := Apply(w.store, b)) else w
    case Drop(b) => w.(pending := w.pending - {b})
  }

  /** What is asked of the surroundings: generated uuids are new, and different persons apply with
      different email addresses. The same person may apply again, at any time and however often. */
  predicate Admissible(w: World, step: Step) {
    match step
    case Submit(person, uuid, member, _, _) =>
      && uuid !in w.uuids
      && if person in w.emails then member.GetEmail() == w.emails[person] else member.GetEmail() !in w.emails.Values
    case Begin(op) => op.Goodbye? ==> op.uuid !in w.uuids
    case Execute(_) => true
    case Drop(_) => true
  }

  function Run(parse: Parser, steps: seq<Step>): World {
    if steps == [] then INIT else Do(parse, Run(parse, steps[..|steps| - 1]), steps[|steps| - 1])
  }

  predicate AdmissibleRun(parse: Parser, steps: seq<Step>) {
    steps == [] ||
    (AdmissibleRun(parse, steps[..|steps| - 1]) && Admissible(Run(parse, steps[..|steps| - 1]), steps[|steps| - 1]))
  }

  lemma RunPlus(parse: Parser, steps: seq<Step>, step: Step)
    ensures Run(parse, steps + [step]) == Do(parse, Run(parse, steps), step)
    ensures AdmissibleRun(parse, steps + [step]) <==> AdmissibleRun(parse, steps) && Admissible(Run(parse, steps), step)
  {
    assert (steps + [step])[..|steps|] == steps;
  }

  // ---- what every step keeps -----------------------------------------------------------------

  /** Place `loc` can only ever hold the record of person `q`. */
  predicate Owns(w: World, loc: Loc, q: Person) {
    && q in w.emails
    && if loc.table == Members then loc.id == w.emails[q] else loc.id in w.uuids && w.uuids[loc.id] == q
  }

  /** An agreement that decodes, with member data and metadata. */
  predicate IsRecord(pbData: Blob) {
    && pbData.AgreementBlob? && pbData.agreement.Complete()
    && pbData.agreement.memberData.Some? && pbData.agreement.metadata.Some?
  }

  /** The record of an application of `q`. */
  predicate IsApplicationOf(w: World, pbData: Blob, q: Person) {
    IsRecord(pbData) && q in w.emails && pbData.agreement.memberData.value.GetEmail() == w.emails[q]
  }

  predicate RowOk(w: World, loc: Loc, row: Row) {
    Owns(w, loc, row.person) && (loc.table in {Application, Queue} ==> IsApplicationOf(w, row.pbData, row.person))
  }

  predicate BatchOk(w: World, b: Batch) {
    match b
    case Put(loc, q, pbData, _) => loc.table == Application && Owns(w, loc, q) && IsApplicationOf(w, pbData, q)
    case Rewrite(email, q, _, _) => Owns(w, Loc(Members, email), q)
    case Promote(email, q, _, queueId) => Owns(w, Loc(Members, email), q) && Owns(w, Loc(Queue, queueId), q)
    case Move(src, dst, q, pbData) =>
      && Owns(w, src, q) && Owns(w, dst, q) && Rank(src.table) < Rank(dst.table)
      && dst.table != Members
      && (dst.table == Queue ==> IsApplicationOf(w, pbData, q))
  }

  ghost predicate Present(s: Store, q: Person, rank: nat) {
    exists loc :: loc in s.rows && s.rows[loc].person == q && rank <= Rank(loc.table)
  }

  ghost predicate Inv(w: World) {
    && (forall loc :: loc in w.store.rows ==> RowOk(w, loc, w.store.rows[loc]))
    && (forall b :: b in w.pending ==> BatchOk(w, b))
    && (forall q, r :: q in w.emails && r in w.emails && w.emails[q] == w.emails[r] ==> q == r)
    && (forall q :: q in w.emails ==> Present(w.store, q, 0))
  }

  /** The records of the past only grow, by new entries. */
  ghost predicate Grows(w: World, v: World) {
    && (forall u :: u in w.uuids ==> u in v.uuids && v.uuids[u] == w.uuids[u])
    && (forall p :: p in w.emails ==> p in v.emails && v.emails[p] == w.emails[p])
  }

  lemma BatchOkGrows(w: World, v: World, b: Batch)
    requires BatchOk(w, b) && Grows(w, v)
    ensures BatchOk(v, b)
  {
  }

  lemma OwnerIsUnique(w: World, loc: Loc, q: Person, r: Person)
    requires Inv(w) && Owns(w, loc, q) && Owns(w, loc, r)
    ensures q == r
  {
  }

  /** A well-formed batch puts its person's record somewhere, at a rank no lower than any place it empties. */
  lemma BatchTarget(w: World, b: Batch) returns (loc: Loc)
    requires Inv(w) && BatchOk(w, b)
    ensures loc == Target(b) && loc in Apply(w.store, b).rows && Apply(w.store, b).rows[loc].person == b.person
    ensures forall l :: l in w.store.rows && l !in Apply(w.store, b).rows ==> Rank(l.table) < Rank(loc.table)
  {
    match b
    case Put(l, _, _, _) => loc := l;
    case Rewrite(email, _, _, _) => loc := Loc(Members, email);
    case Promote(email, _, _, _) => loc := Loc(Members, email);
    case Move(_, dst, _, _) => loc := dst;
  }

  /** Nobody else's rows are touched. */
  lemma BatchFrame(w: World, b: Batch, l: Loc)
    requires Inv(w) && BatchOk(w, b)
    requires l in w.store.rows && w.store.rows[l].person != b.person
    ensures l in Apply(w.store, b).rows && Apply(w.store, b).rows[l] == w.store.rows[l]
  {
    var q := w.store.rows[l].person;
    assert Owns(w, Source(b), b.person) && Owns(w, Target(b), b.person);
    if l == Source(b) || l == Target(b) { OwnerIsUnique(w, l, q, b.person); }
    ApplyFrame(w.store, b, l);
  }

  /** A batch touches its source and its target. */
  lemma ApplyFrame(s: Store, b: Batch, l: Loc)
    requires l in s.rows && l != Source(b) && l != Target(b)
    ensures l in Apply(s, b).rows && Apply(s, b).rows[l] == s.rows[l]
  {
  }

  lemma ApplyKeepsPresence(w: World, b: Batch, q: Person, rank: nat)
    requires Inv(w) && BatchOk(w, b) && Present(w.store, q, rank)
    ensures Present(Apply(w.store, b), q, rank)
  {
    var l :| l in w.store.rows && w.store.rows[l].person == q && rank <= Rank(l.table);
    var s := Apply(w.store, b);
    if q != b.person {
      BatchFrame(w, b, l);
      assert l in s.rows && s.rows[l].person == q;
    } else if l in s.rows {
      ApplyKeepsPerson(w, b, l);
    } else {
      var t := BatchTarget(w, b);
      assert t in s.rows && s.rows[t].person == q && rank <= Rank(t.table);
    }
  }

  lemma ApplyKeepsPerson(w: World, b: Batch, l: Loc)
    requires Inv(w) && BatchOk(w, b) && l in w.store.rows && l in Apply(w.store, b).rows
    ensures Apply(w.store, b).rows[l].person == w.store.rows[l].person
  {
    if w.store.rows[l].person != b.person { BatchFrame(w, b, l); }
  }

  lemma ExecuteKeepsRows(w: World, b: Batch, l: Loc)
    requires Inv(w) && BatchOk(w, b)
    requires l in Apply(w.store, b).rows
    ensures RowOk(w.(store := Apply(w.store, b)), l, Apply(w.store, b).rows[l])
  {
    if l in w.store.rows { assert RowOk(w, l, w.store.rows[l]); }
  }

  lemma ExecuteKeepsInv(w: World, b: Batch)
    requires Inv(w) && BatchOk(w, b)
    ensures Inv(w.(store := Apply(w.store, b)))
  {
    var v := w.(store := Apply(w.store, b));
    forall l | l in v.store.rows ensures RowOk(v, l, v.store.rows[l]) { ExecuteKeepsRows(w, b, l); }
    forall c | c in v.pending ensures BatchOk(v, c) { assert BatchOk(w, c); }
    forall q | q in v.emails ensures Present(v.store, q, 0) { ApplyKeepsPresence(w, b, q, 0); }
  }

  lemma MoveIsOk(parse: Parser, w: World, id: Bytes, initiator: Bytes, now: uint64, src: Table, dst: Table)
    requires Inv(w) && src in {Application, Queue} && dst in {Queue, Archive} && src != dst
    requires PrepareMove(parse, w.store, id, initiator, now, src, dst).Ok?
    ensures BatchOk(w, PrepareMove(parse, w.store, id, initiator, now, src, dst).value)
  {
    assert RowOk(w, Loc(src, id), w.store.rows[Loc(src, id)]);
  }

  lemma GoodbyeIsOk(parse: Parser, w: World, op: Op)
    requires Inv(w) && op.Goodbye? && op.uuid !in w.uuids && Prepare(parse, w.store, op).Ok?
    ensures var b := Prepare(parse, w.store, op).value;
            BatchOk(w.(uuids := w.uuids[op.uuid := b.person]), b)
  {
    assert RowOk(w, Loc(Members, op.email), w.store.rows[Loc(Members, op.email)]);
  }

  lemma UploadIsOk(parse: Parser, w: World, op: Op)
    requires Inv(w) && op.Upload? && Prepare(parse, w.store, op).Ok?
    ensures BatchOk(w, Prepare(parse, w.store, op).value)
  {
    assert RowOk(w, Loc(Application, op.id), w.store.rows[Loc(Application, op.id)]);
  }

  lemma EditIsOk(parse: Parser, w: World, op: Op)
    requires Inv(w) && op.EditMember? && Prepare(parse, w.store, op).Ok?
    ensures BatchOk(w, Prepare(parse, w.store, op).value)
  {
    assert RowOk(w, Loc(Members, op.email), w.store.rows[Loc(Members, op.email)]);
  }

  lemma PromotionIsOk(parse: Parser, w: World, op: Op)
    requires Inv(w) && op.PromoteQueued? && Prepare(parse, w.store, op).Ok?
    ensures BatchOk(w, Prepare(parse, w.store, op).value)
  {
    assert RowOk(w, Loc(Queue, op.id), w.store.rows[Loc(Queue, op.id)]);
  }

  lemma ArchivingIsOk(parse: Parser, w: World, op: Op)
    requires Inv(w) && op.ArchiveDeparted? && Prepare(parse, w.store, op).Ok?
    ensures BatchOk(w, Prepare(parse, w.store, op).value)
  {
    assert RowOk(w, Loc(Dequeue, op.id), w.store.rows[Loc(Dequeue, op.id)]);
  }

  /** A prepared batch is well-formed: it stays within the places of the person whose row was read,
      and moves only up. */
  lemma PreparedIsOk(parse: Parser, w: World, op: Op)
    requires Inv(w) && Admissible(w, Begin(op)) && Prepare(parse, w.store, op).Ok?
    ensures var b := Prepare(parse, w.store, op).value;
            BatchOk(w.(uuids := Registered(w, op, b.person)), b)
  {
    if op.Goodbye? {
      GoodbyeIsOk(parse, w, op);
    } else {
      assert w.(uuids := w.uuids) == w;
      match op
      case Upload(_, _) => UploadIsOk(parse, w, op);
      case Approve(id, initiator, now) => MoveIsOk(parse, w, id, initiator, now, Application, Queue);
      case RejectApplicant(id, initiator, now) => MoveIsOk(parse, w, id, initiator, now, Application, Archive);
      case CancelQueued(id, initiator, now) => MoveIsOk(parse, w, id, initiator, now, Queue, Archive);
      case PromoteQueued(_, _) => PromotionIsOk(parse, w, op);
      case ArchiveDeparted(_) => ArchivingIsOk(parse, w, op);
      case EditMember(_, _) => EditIsOk(parse, w, op);
    }
  }

  lemma GrowthKeepsInv(w: World, v: World)
    requires Inv(w) && v.store == w.store && v.pending == w.pending && v.emails == w.emails && Grows(w, v)
    ensures Inv(v)
  {
    forall l | l in v.store.rows ensures RowOk(v, l, v.store.rows[l]) { assert RowOk(w, l, w.store.rows[l]); }
    forall b | b in v.pending ensures BatchOk(v, b) { BatchOkGrows(w, v, b); }
  }

  lemma BeginKeepsInv(parse: Parser, w: World, op: Op)
    requires Inv(w) && Admissible(w, Begin(op))
    ensures Inv(Do(parse, w, Begin(op)))
  {
    match Prepare(parse, w.store, op)
    case Err(_) =>
    case Ok(b) =>
      var v := w.(uuids := Registered(w, op, b.person));
      PreparedIsOk(parse, w, op);
      GrowthKeepsInv(w, v);
      var x := Do(parse, w, Begin(op));
      forall l | l in x.store.rows ensures RowOk(x, l, x.store.rows[l]) { assert RowOk(v, l, v.store.rows[l]); }
      forall c | c in x.pending ensures BatchOk(x, c) { assert BatchOk(v, c); }
  }

  lemma SubmitKeepsRows(parse: Parser, w: World, step: Step, l: Loc)
    requires Inv(w) && step.Submit? && Admissible(w, step) && l in Do(parse, w, step).store.rows
    ensures RowOk(Do(parse, w, step), l, Do(parse, w, step).store.rows[l])
  {
    if l in w.store.rows { assert RowOk(w, l, w.store.rows[l]); }
  }

  lemma SubmitKeepsBatches(parse: Parser, w: World, step: Step, c: Batch)
    requires Inv(w) && step.Submit? && Admissible(w, step) && c in Do(parse, w, step).pending
    ensures BatchOk(Do(parse, w, step), c)
  {
    if c in w.pending { BatchOkGrows(w, Do(parse, w, step), c); }
  }

  lemma SubmitKeepsRecords(parse: Parser, w: World, step: Step)
    requires Inv(w) && step.Submit? && Admissible(w, step)
    ensures var v := Do(parse, w, step);
            forall q, r :: q in v.emails && r in v.emails && v.emails[q] == v.emails[r] ==> q == r
  {
  }

  lemma SubmitKeepsInv(parse: Parser, w: World, step: Step)
    requires Inv(w) && step.Submit? && Admissible(w, step)
    ensures Inv(Do(parse, w, step))
  {
    var v := Do(parse, w, step);
    SubmitKeepsRecords(parse, w, step);
    forall l | l in v.store.rows ensures RowOk(v, l, v.store.rows[l]) { SubmitKeepsRows(parse, w, step, l); }
    forall c | c in v.pending ensures BatchOk(v, c) { SubmitKeepsBatches(parse, w, step, c); }
    forall q | q in v.emails ensures Present(v.store, q, 0) { SubmitKeepsPresence(parse, w, step, q, 0); }
  }

  lemma SubmitKeepsPresence(parse: Parser, w: World, step: Step, q: Person, rank: nat)
    requires Inv(w) && step.Submit? && Admissible(w, step)
    requires q in w.emails ==> Present(w.store, q, rank)
    requires q in Do(parse, w, step).emails && (q !in w.emails ==> rank == 0)
    ensures Present(Do(parse, w, step).store, q, rank)
  {
    var v := Do(parse, w, step);
    if q in w.emails {
      var l :| l in w.store.rows && w.store.rows[l].person == q && rank <= Rank(l.table);
      assert RowOk(w, l, w.store.rows[l]);
      assert l in v.store.rows && v.store.rows[l].person == q;
    } else {
      var l := Loc(Application, step.uuid);
      assert l in v.store.rows && v.store.rows[l].person == q;
    }
  }

  lemma StepKeepsInv(parse: Parser, w: World, step: Step)
    requires Inv(w) && Admissible(w, step)
    ensures Inv(Do(parse, w, step))
  {
    match step
    case Submit(_, _, _, _, _) => SubmitKeepsInv(parse, w, step);
    case Begin(op) => BeginKeepsInv(parse, w, op);
    case Execute(b) => if b in w.pending { ExecuteKeepsInv(w, b); }
    case Drop(b) =>
      FewerPendingKeepsInv(w, w.pending - {b});
  }

  lemma FewerPendingKeepsInv(w: World, pending: set<Batch>)
    requires Inv(w) && pending <= w.pending
    ensures Inv(w.(pending := pending))
  {
    var v := w.(pending := pending);
    forall l | l in v.store.rows ensures RowOk(v, l, v.store.rows[l]) { assert RowOk(w, l, w.store.rows[l]); }
    forall c | c in v.pending ensures BatchOk(v, c) { assert BatchOk(w, c); }
  }

  lemma StepKeepsPresence(parse: Parser, w: World, step: Step, q: Person, rank: nat)
    requires Inv(w) && Admissible(w, step) && q in w.emails && Present(w.store, q, rank)
    ensures q in Do(parse, w, step).emails && Present(Do(parse, w, step).store, q, rank)
  {
    match step
    case Submit(_, _, _, _, _) => SubmitKeepsPresence(parse, w, step, q, rank);
    case Begin(_) =>
    case Execute(b) => if b in w.pending { ApplyKeepsPresence(w, b, q, rank); }
    case Drop(_) =>
  }

  // ---- theorems over every run ---------------------------------------------------------------

  lemma {:induction false} ReachableInv(parse: Parser, steps: seq<Step>)
    requires AdmissibleRun(parse, steps)
    ensures Inv(Run(parse, steps))
  {
    if steps == [] {
    } else {
      var n := |steps| - 1;
      ReachableInv(parse, steps[..n]);
      StepKeepsInv(parse, Run(parse, steps[..n]), steps[n]);
    }
  }

  /** Nobody is lost: whatever was prepared and executed in whatever order, everyone who
      ever applied has a row in a lifecycle table. */
  lemma EveryoneIsKept(parse: Parser, steps: seq<Step>, q: Person)
    requires AdmissibleRun(parse, steps) && q in Run(parse, steps).emails
    ensures exists loc :: loc in Run(parse, steps).store.rows && Run(parse, steps).store.rows[loc].person == q
  {
    ReachableInv(parse, steps);
    assert Present(Run(parse, steps).store, q, 0);
  }

  /** And nobody falls back: the highest stage a person has a row in never goes down again. */
  lemma {:induction false} StagesNeverDrop(parse: Parser, steps: seq<Step>, n: nat, q: Person, rank: nat)
    requires n <= |steps| && AdmissibleRun(parse, steps)
    requires q in Run(parse, steps[..n]).emails && Present(Run(parse, steps[..n]).store, q, rank)
    ensures q in Run(parse, steps).emails && Present(Run(parse, steps).store, q, rank)
  {
    if n == |steps| {
      assert steps[..n] == steps;
    } else {
      var m := |steps| - 1;
      assert steps[..m][..n] == steps[..n];
      StagesNeverDrop(parse, steps[..m], n, q, rank);
      ReachableInv(parse, steps[..m]);
      StepKeepsPresence(parse, Run(parse, steps[..m]), steps[m], q, rank);
    }
  }

  // ---- what needs no assumption at all -----------------------------------------------------------

  /** The approval gate: a scan has been uploaded, and who approved it and when is on record. */
  predicate Gated(pbData: Blob) {
    && pbData.AgreementBlob? && |pbData.agreement.agreementPdf| > 0 && pbData.agreement.metadata.Some?
    && pbData.agreement.metadata.value.approverUid.Some?
    && pbData.agreement.metadata.value.approvalTimestamp.Some?
  }

  predicate RowGuarded(s: Store, loc: Loc) {
    loc in s.rows ==>
      && (loc.table in {Application, Queue} ==> IsRecord(s.rows[loc].pbData))
      && (loc.table == Queue ==> Gated(s.rows[loc].pbData))
      && (loc.table == Members ==>
            && s.rows[loc].columns.Keys <= SETTABLE
            && loc.id in s.agreements && s.agreements[loc.id] == s.rows[loc].pbData)
  }

  predicate BatchGuarded(b: Batch) {
    match b
    case Put(loc, _, pbData, _) => loc.table == Application && IsRecord(pbData)
    case Rewrite(_, _, _, columns) => columns.Keys <= SETTABLE
    case Promote(_, _, _, _) => true
    case Move(src, dst, _, pbData) =>
      && src != dst && dst.table != Application && dst.table != Members
      && (dst.table == Queue ==> IsRecord(pbData) && Gated(pbData))
  }

  ghost predicate Guarded(w: World) {
    (forall loc :: RowGuarded(w.store, loc)) && (forall b :: b in w.pending ==> BatchGuarded(b))
  }

  lemma EditIsGuarded(parse: Parser, s: Store, email: Bytes, e: Edit)
    requires PrepareEdit(parse, s, email, e).Ok?
    ensures BatchGuarded(PrepareEdit(parse, s, email, e).value)
  {
    assert EditAgreement(Unmarshal(parse, s.rows[Loc(Members, email)].pbData).value, e).value.1.Keys <= SETTABLE;
  }

  lemma PreparedIsGuarded(parse: Parser, s: Store, op: Op)
    requires Prepare(parse, s, op).Ok? && RowGuarded(s, Origin(op))
    ensures BatchGuarded(Prepare(parse, s, op).value)
  {
    if op.EditMember? { EditIsGuarded(parse, s, op.email, op.edit); }
  }

  lemma ApplyKeepsGuard(s: Store, b: Batch, loc: Loc)
    requires BatchGuarded(b) && RowGuarded(s, loc)
    ensures RowGuarded(Apply(s, b), loc)
  {
  }

  lemma StepKeepsGuard(parse: Parser, w: World, step: Step)
    requires Guarded(w)
    ensures Guarded(Do(parse, w, step))
  {
    match step
    case Submit(person, uuid, member, metadata, now) =>
      var r := PrepareRequest(person, uuid, member, metadata, now);
      if r.Ok? {
        forall loc ensures RowGuarded(Apply(w.store, r.value), loc) { ApplyKeepsGuard(w.store, r.value, loc); }
      }
    case Begin(op) =>
      if Prepare(parse, w.store, op).Ok? {
        assert RowGuarded(w.store, Origin(op));
        PreparedIsGuarded(parse, w.store, op);
      }
    case Execute(b) =>
      if b in w.pending {
        forall loc ensures RowGuarded(Apply(w.store, b), loc) { ApplyKeepsGuard(w.store, b, loc); }
      }
    case Drop(_) =>
  }

  lemma {:induction false} ReachableGuard(parse: Parser, steps: seq<Step>)
    ensures Guarded(Run(parse, steps))
  {
    if steps == [] {
    } else {
      var n := |steps| - 1;
      ReachableGuard(parse, steps[..n]);
      StepKeepsGuard(parse, Run(parse, steps[..n]), steps[n]);
    }
  }

  // ---- uuids as keys -----------------------------------------------------------------------------

  /** Generated uuids have 16 bytes. */
  predicate Sized(step: Step) {
    match step
    case Submit(_, uuid, _, _, _) => |uuid| == 16
    case Begin(op) => op.Goodbye? ==> |op.uuid| == 16
    case Execute(_) => true
    case Drop(_) => true
  }

  predicate SizedKey(loc: Loc) { loc.table != Members ==> |loc.id| == 16 }

  ghost predicate SizedKeys(w: World) {
    (forall l :: l in w.store.rows ==> SizedKey(l)) && (forall b :: b in w.pending ==> SizedKey(Target(b)))
  }

  lemma StepKeepsSizes(parse: Parser, w: World, step: Step)
    requires SizedKeys(w) && Sized(step)
    ensures SizedKeys(Do(parse, w, step))
  {
    match step
    case Submit(_, _, _, _, _) =>
    case Begin(op) => assert Prepare(parse, w.store, op).Ok? ==> SizedKey(Origin(op));
    case Execute(b) => assert b in w.pending ==> SizedKey(Target(b));
    case Drop(_) =>
  }

  /** So outside members keys have 16 bytes. */
  lemma {:induction false} ReachableKeys(parse: Parser, steps: seq<Step>)
    requires forall i :: 0 <= i < |steps| ==> Sized(steps[i])
    ensures SizedKeys(Run(parse, steps))
  {
    if steps == [] {
    } else {
      var n := |steps| - 1;
      ReachableKeys(parse, steps[..n]);
      StepKeepsSizes(parse, Run(parse, steps[..n]), steps[n]);
    }
  }

  lemma NextMoment(parse: Parser, steps: seq<Step>, n: nat)
    requires n < |steps|
    ensures Run(parse, steps[..n + 1]) == Do(parse, Run(parse, steps[..n]), steps[n]) && Guarded(Run(parse, steps[..n]))
  {
    assert steps[..n + 1][..n] == steps[..n];
    ReachableGuard(parse, steps[..n]);
  }

  /** The gate, the mirror and the columns, in every interleaving of any steps whatever. */
  lemma ReachableRows(parse: Parser, steps: seq<Step>, loc: Loc)
    requires loc in Run(parse, steps).store.rows
    ensures var s := Run(parse, steps).store;
            && (loc.table == Queue ==> Gated(s.rows[loc].pbData))
            && (loc.table == Members ==> loc.id in s.agreements && s.agreements[loc.id] == s.rows[loc].pbData)
            && (loc.table == Members ==> s.rows[loc].columns.Keys <= SETTABLE)
  {
    ReachableGuard(parse, steps);
    assert RowGuarded(Run(parse, steps).store, loc);
  }
}
