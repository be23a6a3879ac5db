/** Steps that take a person from the form into the queue and into `members`, from any run onwards. */
module Journeys {
  import opened ByteStrings
  import opened Records
  import opened Store
  import opened Interleaving

  /** An operation begun and executed, and its batch left pending. */
  lemma Operate(parse: Parser, steps: seq<Step>, op: Op) returns (run: seq<Step>)
    requires Prepare(parse, Run(parse, steps).store, op).Ok?
    ensures var w := Run(parse, steps); var b := Prepare(parse, w.store, op).value;
            && run == steps + [Begin(op)] + [Execute(b)]
            && Run(parse, run) == World(Apply(w.store, b), w.pending + {b}, Registered(w, op, b.person), w.emails)
    ensures AdmissibleRun(parse, steps) && Admissible(Run(parse, steps), Begin(op)) ==> AdmissibleRun(parse, run)
  {
    var b := Prepare(parse, Run(parse, steps).store, op).value;
    RunPlus(parse, steps, Begin(op));
    RunPlus(parse, steps + [Begin(op)], Execute(b));
    run := steps + [Begin(op)] + [Execute(b)];
  }

  const NO_METADATA := Metadata(None, None, None, None, None, None, None, None, None, None)

  /** The rows but for one place. */
  ghost predicate OnlyPlace(before: map<Loc, Row>, after: map<Loc, Row>, l: Loc) {
    l in after && after == before[l := after[l]]
  }

  ghost predicate Continues(parse: Parser, steps: seq<Step>, run: seq<Step>) {
    && steps <= run && Run(parse, steps).pending <= Run(parse, run).pending
  }

  lemma Applies(parse: Parser, steps: seq<Step>, q: Person, uuid: Bytes, m: Member) returns (run: seq<Step>)
    requires m.Complete() && Loc(Application, uuid) !in Run(parse, steps).store.rows
    ensures var w, v := Run(parse, steps), Run(parse, run); var l := Loc(Application, uuid);
            && OnlyPlace(w.store.rows, v.store.rows, l) && Continues(parse, steps, run)
            && v.store.rows[l].person == q && IsRecord(v.store.rows[l].pbData)
            && v.store.rows[l].pbData.agreement.memberData == Some(m)
            && v.uuids == w.uuids[uuid := q] && v.emails == w.emails[q := m.GetEmail()]
    ensures AdmissibleRun(parse, steps) && Admissible(Run(parse, steps), Submit(q, uuid, m, NO_METADATA, 0))
            ==> AdmissibleRun(parse, run)
  {
    run := steps + [Submit(q, uuid, m, NO_METADATA, 0)];
    RunPlus(parse, steps, Submit(q, uuid, m, NO_METADATA, 0));
  }

  /** An application at hand gets a scan and is approved. */
  lemma IsApproved(parse: Parser, steps: seq<Step>, uuid: Bytes) returns (run: seq<Step>)
    requires Loc(Application, uuid) in Run(parse, steps).store.rows
    requires IsRecord(Run(parse, steps).store.rows[Loc(Application, uuid)].pbData)
    requires Loc(Queue, uuid) !in Run(parse, steps).store.rows
    ensures var w, v := Run(parse, steps), Run(parse, run); var l := Loc(Queue, uuid);
            && l in v.store.rows && v.store.rows == w.store.rows[l := v.store.rows[l]] - {Loc(Application, uuid)}
            && Continues(parse, steps, run)
            && v.store.rows[l].person == w.store.rows[Loc(Application, uuid)].person && IsRecord(v.store.rows[l].pbData)
            && v.store.rows[l].pbData.agreement.memberData
               == w.store.rows[Loc(Application, uuid)].pbData.agreement.memberData
            && v.uuids == w.uuids && v.emails == w.emails
    ensures AdmissibleRun(parse, steps) ==> AdmissibleRun(parse, run)
  {
    var uploaded := Operate(parse, steps, Upload(uuid, [1]));
    run := Operate(parse, uploaded, Approve(uuid, [], 0));
  }

  /** A new person applies, uploads the scan and is approved. */
  lemma JoinsQueue(parse: Parser, steps: seq<Step>, q: Person, uuid: Bytes, m: Member) returns (run: seq<Step>)
    requires m.Complete() && Loc(Application, uuid) !in Run(parse, steps).store.rows
    requires Loc(Queue, uuid) !in Run(parse, steps).store.rows
    ensures var w, v := Run(parse, steps), Run(parse, run); var l := Loc(Queue, uuid);
            && OnlyPlace(w.store.rows, v.store.rows, l) && Continues(parse, steps, run)
            && v.store.rows[l].person == q && IsRecord(v.store.rows[l].pbData)
            && v.store.rows[l].pbData.agreement.memberData == Some(m)
            && v.uuids == w.uuids[uuid := q] && v.emails == w.emails[q := m.GetEmail()]
    ensures AdmissibleRun(parse, steps) && Admissible(Run(parse, steps), Submit(q, uuid, m, NO_METADATA, 0))
            ==> AdmissibleRun(parse, run)
  {
    var applied := Applies(parse, steps, q, uuid, m);
    run := IsApproved(parse, applied, uuid);
  }

  /** And is promoted. */
  lemma JoinsMembers(parse: Parser, steps: seq<Step>, q: Person, uuid: Bytes, m: Member) returns (run: seq<Step>)
    requires m.Complete() && Loc(Application, uuid) !in Run(parse, steps).store.rows
    requires Loc(Queue, uuid) !in Run(parse, steps).store.rows
    ensures var w, v := Run(parse, steps), Run(parse, run); var l := Loc(Members, m.GetEmail());
            && OnlyPlace(w.store.rows, v.store.rows, l) && Continues(parse, steps, run)
            && v.store.rows[l].person == q && v.store.rows[l].pbData == MemberBlob(m)
            && v.uuids == w.uuids[uuid := q] && v.emails == w.emails[q := m.GetEmail()]
    ensures AdmissibleRun(parse, steps) && Admissible(Run(parse, steps), Submit(q, uuid, m, NO_METADATA, 0))
            ==> AdmissibleRun(parse, run)
  {
    var queued := JoinsQueue(parse, steps, q, uuid, m);
    run := Operate(parse, queued, PromoteQueued(uuid, None));
  }
}
