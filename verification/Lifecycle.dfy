/** What becomes of the record itself: when an operation succeeds, and what of the record it keeps. */
module Lifecycle {
  import opened ByteStrings
  import opened Records
  import opened Store
  import opened Interleaving
  import opened Sequential
  import opened Cassandra
  import opened Edits

  /** A client's method call, run alone, is the atomic operation, or changes nothing if the database fails it. */
  lemma CallsAreAtomicOperations(parse: Parser, w: World, op: Op, fault: Fault, after: Store, r: Result<()>)
    requires Executed(AfterRead(fault, Prepare(parse, w.store, op)), fault, w.store, after, r)
    ensures after == if r.Ok? then Atomically(parse, w, op).store else w.store
    ensures r.Ok? <==> fault == NoFault && Prepare(parse, w.store, op).Ok?
    ensures fault == ReadFails ==> r == Err(Internal)
    ensures fault != ReadFails && Prepare(parse, w.store, op).Err? ==> r == Err(Prepare(parse, w.store, op).error)
    ensures fault == WriteFails && Prepare(parse, w.store, op).Ok? ==> r == Err(Internal)
  {
  }

  // ---- which error it is -------------------------------------------------------------------------

  /** The decoded record an operation finds, if any. */
  function Found(parse: Parser, s: Store, op: Op): Option<Agreement> {
    if Origin(op) in s.rows then Unmarshal(parse, s.rows[Origin(op)].pbData) else None
  }

  predicate IsAudited(op: Op) { op.Approve? || op.RejectApplicant? || op.CancelQueued? || op.Goodbye? }

  predicate IsDraining(op: Op) { op.PromoteQueued? || op.ArchiveDeparted? }

  /** Moves by hand: no row, a row that does not decode, an approval without a scan, or else a record without
      metadata. */
  lemma AuditedErrors(parse: Parser, s: Store, op: Op)
    requires IsAudited(op)
    ensures var r := Prepare(parse, s, op); var a := Found(parse, s, op);
            && (r == Err(NotFound) <==> Origin(op) !in s.rows)
            && (r == Err(DataLoss) <==> Origin(op) in s.rows && a.None?)
            && (r == Err(Internal) <==> a.Some? && op.Approve? && a.value.agreementPdf == [])
            && (r == Err(NilDereference) <==>
                  a.Some? && a.value.metadata.None? && !(op.Approve? && a.value.agreementPdf == []))
            && r != Err(Undecodable)
  {
  }

  /** Draining moves: the queue hands out no such record, or it cannot be encoded. */
  lemma DrainingErrors(parse: Parser, s: Store, op: Op)
    requires IsDraining(op)
    ensures var r := Prepare(parse, s, op); var a := Found(parse, s, op);
            && (r == Err(NotFound) <==> a.None?)
            && (r == Err(Internal) <==> a.Some? && !a.value.memberData.GetOr(EMPTY_MEMBER).Complete())
            && (r.Err? ==> r.error in {NotFound, Internal})
  {
  }

  lemma UploadErrors(parse: Parser, s: Store, op: Op)
    requires op.Upload?
    ensures var r := Prepare(parse, s, op); var a := Found(parse, s, op);
            && (r == Err(NotFound) <==> Origin(op) !in s.rows)
            && (r == Err(Internal) <==> Origin(op) in s.rows && a.None?)
            && (r.Err? ==> r.error in {NotFound, Internal})
  {
  }

  /** Edits: no row or no such field, a row that does not decode, a record without member, or a user name that
      is set. */
  lemma EditErrors(parse: Parser, s: Store, op: Op)
    requires op.EditMember?
    ensures var r := Prepare(parse, s, op); var a := Found(parse, s, op);
            && (r == Err(NotFound) <==> Origin(op) !in s.rows || (a.Some? && Touched(op.edit) == {}))
            && (r == Err(Undecodable) <==> Origin(op) in s.rows && a.None?)
            && (r == Err(NilDereference) <==> a.Some? && Touched(op.edit) != {} && a.value.memberData.None?)
            && (r == Err(Internal) <==>
                  && a.Some? && a.value.memberData.Some? && UsernameColumn in Touched(op.edit)
                  && a.value.memberData.value.GetUsername() != [])
            && r != Err(DataLoss)
  {
    TouchesNothingOnlyIfUnknown(op.edit);
    if Found(parse, s, op).Some? && Found(parse, s, op).value.memberData.Some? {
      var a := Found(parse, s, op).value;
      if EditAgreement(a, op.edit).Ok? { EditSetsFields(a, op.edit, NameColumn); }
    }
  }

  /** In every state any steps reach, approving succeeds exactly when there is such an application and
      its scan has been uploaded: the other error branches are dead. */
  lemma ApprovalSucceedsIff(parse: Parser, w: World, id: Bytes, initiator: Bytes, now: uint64)
    requires Guarded(w)
    ensures Prepare(parse, w.store, Approve(id, initiator, now)).Ok? <==>
              Loc(Application, id) in w.store.rows
              && exists a :: Unmarshal(parse, w.store.rows[Loc(Application, id)].pbData) == Some(a)
                             && a.agreementPdf != []
  {
    if Loc(Application, id) in w.store.rows {
      assert RowGuarded(w.store, Loc(Application, id));
      var blob := w.store.rows[Loc(Application, id)].pbData;
      assert Unmarshal(parse, blob) == Some(blob.agreement);
    }
  }

  /** Uploading and rejecting succeed exactly on applications, cancelling and promoting exactly on queue entries. */
  lemma OthersSucceedIffPresent(parse: Parser, w: World, op: Op)
    requires Guarded(w) && (op.Upload? || op.RejectApplicant? || op.CancelQueued? || op.PromoteQueued?)
    ensures Prepare(parse, w.store, op).Ok? <==> Origin(op) in w.store.rows
  {
    assert RowGuarded(w.store, Origin(op));
  }

  /** Scan and member data unchanged, and of the metadata at most the approval and goodbye fields. */
  predicate OnlyAudited(a: Agreement, x: Agreement) {
    && x == a.(metadata := x.metadata) && a.metadata.Some? && x.metadata.Some?
    && var p := a.metadata.value;
       p == x.metadata.value.(
              approverUid := p.approverUid, approvalTimestamp := p.approvalTimestamp,
              goodbyeInitiator := p.goodbyeInitiator, goodbyeReason := p.goodbyeReason,
              goodbyeTimestamp := p.goodbyeTimestamp)
  }

  /** Approval, rejection, cancellation and goodbye carry the decoded record on with only its audit fields changed. */
  lemma AuditedMovesKeepTheRecord(parse: Parser, w: World, op: Op)
    requires op.Approve? || op.RejectApplicant? || op.CancelQueued? || op.Goodbye?
    requires Prepare(parse, w.store, op).Ok?
    ensures var b := Prepare(parse, w.store, op).value; var a := Unmarshal(parse, w.store.rows[Origin(op)].pbData);
            a.Some? && b.pbData.AgreementBlob? && OnlyAudited(a.value, b.pbData.agreement)
  {
  }

  /** Promotion and archiving carry on the member data, a promoted account's uid apart, and nothing else. */
  lemma DrainingMovesKeepTheMember(parse: Parser, w: World, op: Op)
    requires (op.PromoteQueued? || op.ArchiveDeparted?) && Prepare(parse, w.store, op).Ok?
    ensures var b := Prepare(parse, w.store, op).value; var a := Unmarshal(parse, w.store.rows[Origin(op)].pbData);
            && a.Some? && b.pbData.MemberBlob?
            && b.pbData.member.(id := None) == a.value.memberData.GetOr(EMPTY_MEMBER).(id := None)
            && b.pbData.member.id == if op.PromoteQueued? && op.newId.Some? then op.newId
                                     else a.value.memberData.GetOr(EMPTY_MEMBER).id
  {
  }

  /** A new application reads back as it was sent, with a request timestamp. */
  lemma RequestReadsBack(parse: Parser, w: World, c: Command)
    requires c.Request?
    ensures var v := Next(parse, w, c); var loc := Loc(Application, c.uuid);
            if !c.member.Complete() then v == w
            else
              && loc in v.store.rows && v.store.rows[loc].person == c.person
              && exists a :: Unmarshal(parse, v.store.rows[loc].pbData) == Some(a)
                   && a.memberData == Some(c.member) && a.agreementPdf == [] && a.metadata.Some?
                   && a.metadata.value.requestTimestamp == Some(c.metadata.requestTimestamp.GetOr(c.now))
                   && a.metadata.value.(requestTimestamp := c.metadata.requestTimestamp) == c.metadata
  {
    if c.member.Complete() {
      var blob := Next(parse, w, c).store.rows[Loc(Application, c.uuid)].pbData;
      assert Unmarshal(parse, blob) == Some(blob.agreement);
    }
  }

  /** Uploading a scan opens the gate: then approval succeeds, and the queue holds
      the application with that scan, approver and time. */
  lemma UploadThenApprove(parse: Parser, w: World, id: Bytes, pdf: Bytes, initiator: Bytes, now: uint64)
    requires Guarded(w) && Loc(Application, id) in w.store.rows && pdf != []
    ensures var v := Atomically(parse, w, Upload(id, pdf));
            var x := Atomically(parse, v, Approve(id, initiator, now));
            var a := Unmarshal(parse, w.store.rows[Loc(Application, id)].pbData);
            && Prepare(parse, v.store, Approve(id, initiator, now)).Ok?
            && a.Some? && a.value.metadata.Some? && Loc(Queue, id) in x.store.rows
            && x.store.rows[Loc(Queue, id)].pbData
               == AgreementBlob(Approved(a.value, initiator, now).(agreementPdf := pdf))
  {
    assert RowGuarded(w.store, Loc(Application, id));
    UploadStoresScan(parse, w, id, pdf);
  }

  lemma UploadStoresScan(parse: Parser, w: World, id: Bytes, pdf: Bytes)
    requires Guarded(w) && Loc(Application, id) in w.store.rows
    ensures var s := Atomically(parse, w, Upload(id, pdf)).store; var a := w.store.rows[Loc(Application, id)].pbData;
            && a.AgreementBlob? && a.agreement.Complete() && Loc(Application, id) in s.rows
            && s.rows[Loc(Application, id)].pbData == AgreementBlob(a.agreement.(agreementPdf := pdf))
  {
    assert RowGuarded(w.store, Loc(Application, id));
  }
}
