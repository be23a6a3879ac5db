/** The columns an application is stored with, beside its blob: what they hold, that they never contradict it,
    and when they are lost. */
module ApplicationForm {
  import opened ByteStrings
  import opened Records
  import opened Store
  import opened Interleaving
  import opened Edits

  /** What a column holds, if it is not null. */
  function Cell(columns: Columns, c: Column): Option<CqlValue> {
    if c in columns then Some(columns[c]) else None
  }

  /** The form, column by column: each text field of the member as far as it is set, the email address not verified
      yet whatever the request says, fee and period, and where the request came from. */
  predicate IsForm(columns: Columns, m: Member, md: Metadata) {
    IsFormOfPerson(columns, m) && IsFormOfRest(columns, m, md) && NoOtherColumns(columns)
  }

  predicate NoOtherColumns(columns: Columns) {
    IdColumn !in columns && HasKeyColumn !in columns && PaymentsColumn !in columns
  }

  predicate IsFormOfPerson(columns: Columns, m: Member) {
    && Cell(columns, NameColumn) == Text(m.name)
    && Cell(columns, StreetColumn) == Text(m.street)
    && Cell(columns, CityColumn) == Text(m.city)
    && Cell(columns, ZipcodeColumn) == Text(m.zipcode)
    && Cell(columns, CountryColumn) == Text(m.country)
    && Cell(columns, EmailColumn) == Text(m.email)
    && Cell(columns, PhoneColumn) == Text(m.phone)
    && Cell(columns, UsernameColumn) == Text(m.username)
    && Cell(columns, PwhashColumn) == Text(m.pwhash)
  }

  predicate IsFormOfRest(columns: Columns, m: Member, md: Metadata) {
    && Cell(columns, EmailVerifiedColumn) == Some(BooleanValue(false))
    && Cell(columns, FeeColumn) == Some(BigintValue(ToInt64(m.fee.GetOr(0))))
    && Cell(columns, FeeYearlyColumn) == Some(BooleanValue(m.feeYearly.GetOr(false)))
    && Cell(columns, SourceIpColumn) == Text(md.requestSourceIp)
    && Cell(columns, UserAgentColumn) == Text(md.userAgent)
  }

  /** The same as one rule for all columns but the scan, for proofs. */
  ghost predicate HasForm(columns: Columns, m: Member, md: Metadata) {
    forall c: Column :: c != ApplicationPdfColumn ==>
      Cell(columns, c) == if c in FORM then FormValue(m, md, c) else None
  }

  lemma FormIsPerson(columns: Columns, m: Member, md: Metadata)
    requires HasForm(columns, m, md)
    ensures IsFormOfPerson(columns, m)
  {
  }

  lemma FormIsRest(columns: Columns, m: Member, md: Metadata)
    requires HasForm(columns, m, md)
    ensures IsFormOfRest(columns, m, md)
  {
  }

  lemma FormIs(columns: Columns, m: Member, md: Metadata)
    requires HasForm(columns, m, md)
    ensures IsForm(columns, m, md)
  {
    FormIsPerson(columns, m, md);
    FormIsRest(columns, m, md);
    FormIsAll(columns, m, md);
  }

  lemma FormIsAll(columns: Columns, m: Member, md: Metadata)
    requires HasForm(columns, m, md)
    ensures NoOtherColumns(columns)
  {
    assert Cell(columns, IdColumn) == None && Cell(columns, HasKeyColumn) == None;
    assert Cell(columns, PaymentsColumn) == None;
  }

  lemma FormCell(m: Member, md: Metadata, c: Column)
    ensures Cell(FormColumns(m, md), c) == if c in FORM then FormValue(m, md, c) else None
  {
  }

  /** The whole form of the record in the blob, or nothing but perhaps a scan: a late upload can bring back a row
      that has moved on, and then brings no more. */
  ghost predicate FormOrScan(pbData: Blob, columns: Columns) {
    && IsRecord(pbData)
    && if EmailVerifiedColumn in columns
       then HasForm(columns, pbData.agreement.memberData.value, pbData.agreement.metadata.value)
       else columns.Keys <= {ApplicationPdfColumn}
  }

  lemma FormHasForm(m: Member, md: Metadata)
    ensures HasForm(FormColumns(m, md), m, md)
    ensures EmailVerifiedColumn in FormColumns(m, md) && ApplicationPdfColumn !in FormColumns(m, md)
  {
    forall c: Column { FormCell(m, md, c); }
    assert Cell(FormColumns(m, md), EmailVerifiedColumn) == Some(BooleanValue(false));
    assert Cell(FormColumns(m, md), ApplicationPdfColumn) == None;
  }

  lemma RequestHasForm(person: Person, uuid: Bytes, m: Member, md: Metadata, now: uint64)
    requires PrepareRequest(person, uuid, m, md, now).Ok?
    ensures var b := PrepareRequest(person, uuid, m, md, now).value;
            && b.Put? && b.loc == Loc(Application, uuid) && FormOrScan(b.pbData, b.columns)
            && b.pbData.agreement.memberData == Some(m) && IsForm(b.columns, m, md)
            && EmailVerifiedColumn in b.columns && ApplicationPdfColumn !in b.columns
  {
    var b := PrepareRequest(person, uuid, m, md, now).value;
    var stamped := b.pbData.agreement.metadata.value;
    FormHasForm(m, stamped);
    FormIs(b.columns, m, stamped);
  }

  lemma NewRow(s: Store, b: Batch)
    requires b.Put? && b.loc !in s.rows
    ensures Apply(s, b) == s.(rows := s.rows[b.loc := Row(b.person, b.pbData, b.columns)])
  {
    assert map[] + b.columns == b.columns;
  }

  /** Under a new uuid a complete request is stored with its form. */
  lemma RequestFillsTheForm(parse: Parser, w: World, step: Step)
    requires step.Submit? && step.member.Complete() && Loc(Application, step.uuid) !in w.store.rows
    ensures var rows := Do(parse, w, step).store.rows; var l := Loc(Application, step.uuid);
            && l in rows && IsForm(rows[l].columns, step.member, step.metadata)
            && ApplicationPdfColumn !in rows[l].columns
  {
    RequestHasForm(step.person, step.uuid, step.member, step.metadata, step.now);
    NewRow(w.store, PrepareRequest(step.person, step.uuid, step.member, step.metadata, step.now).value);
  }

  // ---- every interleaving ------------------------------------------------------------------------

  ghost predicate SameRequest(a: Blob, b: Blob) {
    && IsRecord(a) && IsRecord(b)
    && a.agreement.memberData == b.agreement.memberData && a.agreement.metadata == b.agreement.metadata
  }

  /** No uuid is generated twice for applications. */
  ghost predicate NewUuids(parse: Parser, steps: seq<Step>) {
    forall n :: 0 <= n < |steps| && steps[n].Submit? ==> steps[n].uuid !in Run(parse, steps[..n]).uuids
  }

  ghost predicate RowAgrees(w: World, l: Loc) {
    l.table == Application && l in w.store.rows ==>
      l.id in w.uuids && FormOrScan(w.store.rows[l].pbData, w.store.rows[l].columns)
  }

  /** A batch that writes an application agrees with itself, and with the row it will meet on whose data they are. */
  ghost predicate PutAgrees(w: World, b: Batch) {
    b.Put? ==>
      && b.loc.table == Application && b.loc.id in w.uuids && FormOrScan(b.pbData, b.columns)
      && (b.loc in w.store.rows ==> SameRequest(w.store.rows[b.loc].pbData, b.pbData))
  }

  ghost predicate OneForm(w: World) {
    && Guarded(w)
    && (forall l :: RowAgrees(w, l))
    && (forall b :: b in w.pending ==> PutAgrees(w, b))
    && (forall b, c :: b in w.pending && c in w.pending && b.Put? && c.Put? && b.loc == c.loc ==>
          SameRequest(b.pbData, c.pbData))
  }

  lemma FormsMeet(a: Blob, columns: Columns, b: Blob, more: Columns)
    requires FormOrScan(a, columns) && FormOrScan(b, more) && SameRequest(a, b)
    ensures FormOrScan(b, columns + more)
  {
    forall c: Column ensures Cell(columns + more, c) == if c in more then Cell(more, c) else Cell(columns, c) {
    }
  }

  lemma ExecuteKeepsForm(parse: Parser, w: World, b: Batch)
    requires OneForm(w) && b in w.pending
    ensures OneForm(w.(store := Apply(w.store, b)))
  {
    var v := w.(store := Apply(w.store, b));
    StepKeepsGuard(parse, w, Execute(b));
    assert PutAgrees(w, b) && BatchGuarded(b);
    forall l ensures RowAgrees(v, l) {
      assert RowAgrees(w, l);
      if b.Put? && l == b.loc { PutKeepsForm(w, b); }
    }
    forall c | c in v.pending ensures PutAgrees(v, c) { assert PutAgrees(w, c); }
  }

  lemma PutKeepsForm(w: World, b: Batch)
    requires b.Put? && PutAgrees(w, b) && RowAgrees(w, b.loc)
    ensures RowAgrees(w.(store := Apply(w.store, b)), b.loc)
  {
    if b.loc in w.store.rows {
      FormsMeet(w.store.rows[b.loc].pbData, w.store.rows[b.loc].columns, b.pbData, b.columns);
    } else {
      assert map[] + b.columns == b.columns;
    }
  }

  lemma SubmitKeepsForm(parse: Parser, w: World, step: Step)
    requires OneForm(w) && step.Submit? && step.uuid !in w.uuids
    ensures OneForm(Do(parse, w, step))
  {
    StepKeepsGuard(parse, w, step);
    var r := PrepareRequest(step.person, step.uuid, step.member, step.metadata, step.now);
    if r.Ok? {
      RequestHasForm(step.person, step.uuid, step.member, step.metadata, step.now);
      AddedForm(w, Do(parse, w, step), r.value);
    }
  }

  /** A batch for a new place, with its form, executed and pending. */
  lemma AddedForm(w: World, v: World, b: Batch)
    requires OneForm(w) && b.Put? && b.loc.table == Application && b.loc.id !in w.uuids
    requires FormOrScan(b.pbData, b.columns)
    requires v.store == Apply(w.store, b) && v.pending == w.pending + {b}
    requires Guarded(v) && b.loc.id in v.uuids && forall u :: u in w.uuids ==> u in v.uuids
    ensures OneForm(v)
  {
    assert RowAgrees(w, b.loc);
    NewRow(w.store, b);
    forall l ensures RowAgrees(v, l) { assert RowAgrees(w, l); }
    forall c | c in v.pending ensures PutAgrees(v, c) { assert c in w.pending ==> PutAgrees(w, c); }
    forall c | c in w.pending && c.Put? ensures c.loc != b.loc { assert PutAgrees(w, c); }
  }

  /** An upload reads whose data the row has, and writes no column of the form. */
  lemma UploadAgrees(parse: Parser, w: World, op: Op, c: Batch)
    requires OneForm(w) && Prepare(parse, w.store, op).Ok?
    ensures var b := Prepare(parse, w.store, op).value;
            && PutAgrees(w, b)
            && (b.Put? && c in w.pending && c.Put? && c.loc == b.loc ==> SameRequest(c.pbData, b.pbData))
  {
    assert RowAgrees(w, Origin(op)) && RowGuarded(w.store, Origin(op));
    if c in w.pending { assert PutAgrees(w, c); }
  }

  lemma BeginKeepsForm(parse: Parser, w: World, op: Op)
    requires OneForm(w)
    ensures OneForm(Do(parse, w, Begin(op)))
  {
    var v := Do(parse, w, Begin(op));
    StepKeepsGuard(parse, w, Begin(op));
    if Prepare(parse, w.store, op).Ok? {
      forall l ensures RowAgrees(v, l) { assert RowAgrees(w, l); }
      forall c | c in w.pending ensures PutAgrees(v, c) { assert PutAgrees(w, c); }
      forall c: Batch { UploadAgrees(parse, w, op, c); }
    }
  }

  lemma StepKeepsForm(parse: Parser, w: World, step: Step)
    requires OneForm(w) && (step.Submit? ==> step.uuid !in w.uuids)
    ensures OneForm(Do(parse, w, step))
  {
    match step
    case Submit(_, _, _, _, _) => SubmitKeepsForm(parse, w, step);
    case Begin(op) => BeginKeepsForm(parse, w, op);
    case Execute(b) => if b in w.pending { ExecuteKeepsForm(parse, w, b); }
    case Drop(b) =>
      StepKeepsGuard(parse, w, step);
      forall l ensures RowAgrees(Do(parse, w, step), l) { assert RowAgrees(w, l); }
      forall c | c in w.pending - {b} ensures PutAgrees(Do(parse, w, step), c) { assert PutAgrees(w, c); }
  }

  lemma {:induction false} ReachableForms(parse: Parser, steps: seq<Step>)
    requires NewUuids(parse, steps)
    ensures OneForm(Run(parse, steps))
  {
    if steps == [] {
    } else {
      var n := |steps| - 1;
      forall k | 0 <= k < n && steps[..n][k].Submit? ensures steps[..n][k].uuid !in Run(parse, steps[..n][..k]).uuids {
        assert steps[..n][..k] == steps[..k];
      }
      ReachableForms(parse, steps[..n]);
      StepKeepsForm(parse, Run(parse, steps[..n]), steps[n]);
    }
  }

  /** In every interleaving, uploads and repeated batches included, an application has its whole form, column by column
      as its blob has it, or none of it; and the column `email_verified` tells which. */
  lemma FormIsWholeOrLost(parse: Parser, steps: seq<Step>, id: Bytes)
    requires NewUuids(parse, steps) && Loc(Application, id) in Run(parse, steps).store.rows
    ensures var row := Run(parse, steps).store.rows[Loc(Application, id)];
            exists a :: Unmarshal(parse, row.pbData) == Some(a) && a.memberData.Some? && a.metadata.Some?
              && if EmailVerifiedColumn in row.columns
                 then IsForm(row.columns, a.memberData.value, a.metadata.value)
                 else row.columns.Keys <= {ApplicationPdfColumn}
  {
    var row := Run(parse, steps).store.rows[Loc(Application, id)];
    ReachableForms(parse, steps);
    assert RowAgrees(Run(parse, steps), Loc(Application, id));
    var a := row.pbData.agreement;
    assert Unmarshal(parse, row.pbData) == Some(a);
    if EmailVerifiedColumn in row.columns { FormIs(row.columns, a.memberData.value, a.metadata.value); }
  }

  /** The form's columns that are fields of the member. */
  const MEMBER_FORM := FORM - {EmailVerifiedColumn, SourceIpColumn, UserAgentColumn}

  /** So a column of the form that is a field of the member is set exactly when the form is there and the decoded blob
      has that field, and then it is that field. */
  lemma FormColumnsAgree(parse: Parser, steps: seq<Step>, id: Bytes, c: Column)
    requires NewUuids(parse, steps) && Loc(Application, id) in Run(parse, steps).store.rows && c in MEMBER_FORM
    ensures var row := Run(parse, steps).store.rows[Loc(Application, id)];
            && (c in row.columns <==> EmailVerifiedColumn in row.columns && BlobField(parse, row.pbData, c).Some?)
            && (c in row.columns ==> BlobField(parse, row.pbData, c) == Some(row.columns[c]))
  {
    var row := Run(parse, steps).store.rows[Loc(Application, id)];
    ReachableForms(parse, steps);
    assert RowAgrees(Run(parse, steps), Loc(Application, id));
    CellAgrees(parse, row.pbData, row.columns, c);
  }

  lemma CellAgrees(parse: Parser, pbData: Blob, columns: Columns, c: Column)
    requires FormOrScan(pbData, columns) && c in MEMBER_FORM
    ensures Cell(columns, c) == if EmailVerifiedColumn in columns then BlobField(parse, pbData, c) else None
  {
    var m := pbData.agreement.memberData.value;
    assert BlobField(parse, pbData, c) == Field(m, c);
    if EmailVerifiedColumn in columns {
      assert Cell(columns, c) == FormValue(m, pbData.agreement.metadata.value, c);
    }
  }

  // ---- when the form is lost -----------------------------------------------------------------------

  predicate AllForms(s: Store) {
    forall l :: l in s.rows && l.table == Application ==> EmailVerifiedColumn in s.rows[l].columns
  }

  /** An upload executed meets the application it is for. */
  predicate MeetsApplication(w: World, step: Step) {
    step.Execute? && step.batch in w.pending && step.batch.Put? && EmailVerifiedColumn !in step.batch.columns ==>
      step.batch.loc in w.store.rows
  }

  lemma StepKeepsFormsIff(parse: Parser, w: World, step: Step)
    requires Guarded(w) && AllForms(w.store)
    ensures AllForms(Do(parse, w, step).store) <==> MeetsApplication(w, step)
  {
    match step
    case Submit(person, uuid, member, metadata, now) =>
      if PrepareRequest(person, uuid, member, metadata, now).Ok? {
        var b := PrepareRequest(person, uuid, member, metadata, now).value;
        RequestHasForm(person, uuid, member, metadata, now);
        ExecuteKeepsFormsIff(w.store, b);
        assert Do(parse, w, step).store == Apply(w.store, b);
      }
    case Begin(_) =>
    case Execute(b) => if b in w.pending { ExecuteKeepsFormsIff(w.store, b); }
    case Drop(_) =>
  }

  lemma ExecuteKeepsFormsIff(s: Store, b: Batch)
    requires AllForms(s) && BatchGuarded(b)
    ensures AllForms(Apply(s, b)) <==> (b.Put? && EmailVerifiedColumn !in b.columns ==> b.loc in s.rows)
  {
    var t := Apply(s, b);
    if b.Put? {
      assert b.loc in t.rows && b.loc.table == Application;
    } else {
      forall l | l in t.rows && l.table == Application ensures l in s.rows && t.rows[l] == s.rows[l] {
      }
    }
  }

  /** Over any interleaving of any steps: every application has its form at every moment exactly when every upload
      executed still met the application. */
  lemma FormsThroughoutIff(parse: Parser, steps: seq<Step>)
    ensures (forall n :: 0 <= n <= |steps| ==> AllForms(Run(parse, steps[..n]).store)) <==>
            (forall n :: 0 <= n < |steps| ==> MeetsApplication(Run(parse, steps[..n]), steps[n]))
  {
    if forall n :: 0 <= n < |steps| ==> MeetsApplication(Run(parse, steps[..n]), steps[n]) {
      forall n | 0 <= n <= |steps| ensures AllForms(Run(parse, steps[..n]).store) { FormsStay(parse, steps, n); }
    }
    if forall n :: 0 <= n <= |steps| ==> AllForms(Run(parse, steps[..n]).store) {
      forall n | 0 <= n < |steps| ensures MeetsApplication(Run(parse, steps[..n]), steps[n]) {
        NextMoment(parse, steps, n);
        assert AllForms(Run(parse, steps[..n + 1]).store);
        StepKeepsFormsIff(parse, Run(parse, steps[..n]), steps[n]);
      }
    }
  }

  lemma {:induction false} FormsStay(parse: Parser, steps: seq<Step>, n: nat)
    requires n <= |steps|
    requires forall k :: 0 <= k < |steps| ==> MeetsApplication(Run(parse, steps[..k]), steps[k])
    ensures AllForms(Run(parse, steps[..n]).store)
  {
    if n == 0 {
    } else {
      FormsStay(parse, steps, n - 1);
      NextMoment(parse, steps, n - 1);
      StepKeepsFormsIff(parse, Run(parse, steps[..n - 1]), steps[n - 1]);
    }
  }
}
