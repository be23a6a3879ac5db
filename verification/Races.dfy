/** What late batches cost. One table a person, columns in step with the blob and a chosen user name do not
    survive every interleaving; here is exactly when they do, and runs in which they do not. */
module Races {
  import opened ByteStrings
  import opened Records
  import opened Store
  import opened Interleaving
  import opened Edits
  import opened Sequential
  import opened Lifecycle
  import opened Journeys
  import opened ApplicationForm

  lemma {:induction false} PrefixIsAdmissible(parse: Parser, steps: seq<Step>, n: nat)
    requires AdmissibleRun(parse, steps) && n <= |steps|
    ensures AdmissibleRun(parse, steps[..n])
    ensures n < |steps| ==> Admissible(Run(parse, steps[..n]), steps[n])
    ensures n < |steps| ==> Run(parse, steps[..n + 1]) == Do(parse, Run(parse, steps[..n]), steps[n])
  {
    var m := |steps| - 1;
    if n < |steps| { assert steps[..n + 1][..n] == steps[..n]; }
    if n == |steps| {
      assert steps[..n] == steps;
    } else if n < m {
      PrefixIsAdmissible(parse, steps[..m], n);
      assert steps[..m][..n] == steps[..n];
    }
  }

  // ---- one table a person ------------------------------------------------------------------------

  /** A late batch keeps everyone in one place exactly when the row it was read from, or the one it
      leaves, is still (or already) there. Otherwise it brings the person back in a second place. */
  lemma LateBatchKeepsOnePlaceIff(w: World, b: Batch)
    requires Inv(w) && OnePlaceEach(w.store) && BatchOk(w, b)
    ensures OnePlaceEach(Apply(w.store, b)) <==> Source(b) in w.store.rows || Target(b) in w.store.rows
  {
    if Source(b) in w.store.rows {
      OwnerIsUnique(w, Source(b), w.store.rows[Source(b)].person, b.person);
      BatchMovesOneRow(w, b);
      CarriedKeepsOnePlace(w.store, Apply(w.store, b), b, b.Promote? || b.Move?);
    } else if Target(b) in w.store.rows {
      OwnerIsUnique(w, Target(b), w.store.rows[Target(b)].person, b.person);
    } else {
      SecondPlace(w, b);
    }
  }

  lemma NothingIsTaken(s: Store, b: Batch)
    requires Source(b) !in s.rows
    ensures Source(b) != Target(b) ==> Apply(s, b).rows.Keys == s.rows.Keys + {Target(b)}
    ensures Target(b) in Apply(s, b).rows || Source(b) == Target(b)
    ensures forall l :: l in s.rows && l != Target(b) ==> l in Apply(s, b).rows && Apply(s, b).rows[l] == s.rows[l]
  {
  }

  lemma SecondPlace(w: World, b: Batch)
    requires Inv(w) && BatchOk(w, b) && Source(b) !in w.store.rows && Target(b) !in w.store.rows
    ensures !OnePlaceEach(Apply(w.store, b))
  {
    var rows := Apply(w.store, b).rows;
    var t := BatchTarget(w, b);
    NothingIsTaken(w.store, b);
    assert Present(w.store, b.person, 0);
    var l :| l in w.store.rows && w.store.rows[l].person == b.person;
    assert l in rows && rows[l].person == b.person && t in rows && t !in w.store.rows;
  }

  /** What a step has to meet for that: a batch one of its two rows, an application a new person. */
  predicate MeetsItsRow(w: World, step: Step) {
    match step
    case Submit(person, _, member, _, _) => member.Complete() ==> person !in w.emails
    case Begin(_) => true
    case Execute(b) => b in w.pending ==> Source(b) in w.store.rows || Target(b) in w.store.rows
    case Drop(_) => true
  }

  lemma StepKeepsOnePlaceIff(parse: Parser, w: World, step: Step)
    requires Inv(w) && OnePlaceEach(w.store) && Admissible(w, step)
    ensures OnePlaceEach(Do(parse, w, step).store) <==> MeetsItsRow(w, step)
  {
    match step
    case Submit(person, uuid, member, metadata, now) =>
      var v := Do(parse, w, step);
      if member.Complete() && person in w.emails {
        assert Present(w.store, person, 0);
        var l :| l in w.store.rows && w.store.rows[l].person == person;
        assert RowOk(w, l, w.store.rows[l]) && l in v.store.rows && v.store.rows[l].person == person;
        assert Loc(Application, uuid) in v.store.rows && l != Loc(Application, uuid);
      } else {
        var c := Request(person, uuid, member, metadata, now);
        forall k, l | k in v.store.rows && l in v.store.rows && v.store.rows[k].person == v.store.rows[l].person
          ensures k == l
        {
          if member.Complete() { RequestKeepsOnePlace(parse, w, c, k, l); }
        }
      }
    case Begin(_) =>
    case Execute(b) => if b in w.pending { LateBatchKeepsOnePlaceIff(w, b); }
    case Drop(_) =>
  }

  /** Over whole interleavings: everyone is in one place at every moment exactly when every batch
      executed met one of its two rows and nobody applied twice. */
  lemma OnePlaceThroughoutIff(parse: Parser, steps: seq<Step>)
    requires AdmissibleRun(parse, steps)
    ensures (forall n :: 0 <= n <= |steps| ==> OnePlaceEach(Run(parse, steps[..n]).store)) <==>
            (forall n :: 0 <= n < |steps| ==> MeetsItsRow(Run(parse, steps[..n]), steps[n]))
  {
    if forall n :: 0 <= n < |steps| ==> MeetsItsRow(Run(parse, steps[..n]), steps[n]) {
      forall n | 0 <= n <= |steps| ensures OnePlaceEach(Run(parse, steps[..n]).store) {
        StaysInOnePlace(parse, steps, n);
      }
    }
    if forall n :: 0 <= n <= |steps| ==> OnePlaceEach(Run(parse, steps[..n]).store) {
      forall n | 0 <= n < |steps| ensures MeetsItsRow(Run(parse, steps[..n]), steps[n]) {
        PrefixIsAdmissible(parse, steps, n);
        ReachableInv(parse, steps[..n]);
        assert OnePlaceEach(Run(parse, steps[..n + 1]).store);
        StepKeepsOnePlaceIff(parse, Run(parse, steps[..n]), steps[n]);
      }
    }
  }

  lemma {:induction false} StaysInOnePlace(parse: Parser, steps: seq<Step>, n: nat)
    requires AdmissibleRun(parse, steps) && n <= |steps|
    requires forall k :: 0 <= k < |steps| ==> MeetsItsRow(Run(parse, steps[..k]), steps[k])
    ensures OnePlaceEach(Run(parse, steps[..n]).store)
  {
    if n == 0 {
    } else {
      StaysInOnePlace(parse, steps, n - 1);
      PrefixIsAdmissible(parse, steps, n - 1);
      ReachableInv(parse, steps[..n - 1]);
      StepKeepsOnePlaceIff(parse, Run(parse, steps[..n - 1]), steps[n - 1]);
    }
  }

  // ---- columns and blob --------------------------------------------------------------------------

  predicate WritesMember(b: Batch) { b.Rewrite? || b.Promote? }

  function Written(b: Batch): Columns { if b.Rewrite? then b.columns else map[] }

  /** The columns a batch writes are fields of the blob it writes. */
  ghost predicate InStep(parse: Parser, b: Batch) {
    b.Rewrite? ==> forall c :: c in b.columns ==> BlobField(parse, b.pbData, c) == Some(b.columns[c])
  }

  /** Every column the row has by now, and the batch does not write, is the one the batch's blob has. */
  ghost predicate UpToDate(parse: Parser, s: Store, b: Batch) {
    WritesMember(b) && Target(b) in s.rows ==>
      forall c :: c in s.rows[Target(b)].columns && c !in Written(b) ==>
        BlobField(parse, b.pbData, c) == Some(s.rows[Target(b)].columns[c])
  }

  lemma LateBatchKeepsColumnsIff(parse: Parser, s: Store, b: Batch)
    requires Consistent(parse, s) && BatchGuarded(b) && InStep(parse, b)
    ensures Consistent(parse, Apply(s, b)) <==> UpToDate(parse, s, b)
  {
    var t := Apply(s, b);
    if WritesMember(b) {
      assert forall c :: c in t.rows[Target(b)].columns <==>
                           c in Written(b) || (Target(b) in s.rows && c in s.rows[Target(b)].columns);
      forall l | l in t.rows && l.table == Members && l != Target(b) ensures ColumnsAgree(parse, t.rows[l]) {
        assert t.rows[l] == s.rows[l];
      }
    } else {
      forall l | l in t.rows && l.table == Members ensures ColumnsAgree(parse, t.rows[l]) {
        assert t.rows[l] == s.rows[l];
      }
    }
  }

  /** An edit prepared at `s` and executed at `t` keeps the row's columns in step exactly when every column set
      by then that it does not set itself has the value that was read at `s`. */
  lemma LateEditKeepsColumnsIff(parse: Parser, s: Store, t: Store, email: Bytes, e: Edit)
    requires PrepareEdit(parse, s, email, e).Ok? && Consistent(parse, t)
    ensures Detail(parse, s, email).Some?
    ensures Consistent(parse, Apply(t, PrepareEdit(parse, s, email, e).value)) <==>
              (Loc(Members, email) in t.rows ==>
                 forall c :: c in t.rows[Loc(Members, email)].columns && c !in Touched(e) ==>
                   Field(Detail(parse, s, email).value, c) == Some(t.rows[Loc(Members, email)].columns[c]))
  {
    var b := PrepareEdit(parse, s, email, e).value;
    forall c: Column
      ensures BlobField(parse, b.pbData, c)
              == if c in b.columns then Some(b.columns[c]) else Field(Detail(parse, s, email).value, c)
    {
      EditedFields(parse, s, email, e, c);
    }
    EditedFields(parse, s, email, e, NameColumn);
    EditIsGuarded(parse, s, email, e);
    LateBatchKeepsColumnsIff(parse, t, b);
  }

  lemma PreparedInStep(parse: Parser, s: Store, op: Op)
    requires Prepare(parse, s, op).Ok?
    ensures InStep(parse, Prepare(parse, s, op).value)
  {
    if op.EditMember? {
      forall c: Column { EditedFields(parse, s, op.email, op.edit, c); }
    }
  }

  lemma {:induction false} PendingInStep(parse: Parser, steps: seq<Step>, b: Batch)
    requires b in Run(parse, steps).pending
    ensures InStep(parse, b)
  {
    if steps == [] {
    } else {
      var n := |steps| - 1;
      var w := Run(parse, steps[..n]);
      if b in w.pending {
        PendingInStep(parse, steps[..n], b);
      } else if steps[n].Begin? {
        PreparedInStep(parse, w.store, steps[n].op);
      }
    }
  }

  ghost predicate KeepsColumns(parse: Parser, w: World, step: Step) {
    step.Execute? && step.batch in w.pending ==> UpToDate(parse, w.store, step.batch)
  }

  lemma StepKeepsColumnsIff(parse: Parser, w: World, step: Step)
    requires Guarded(w) && Consistent(parse, w.store) && forall b :: b in w.pending ==> InStep(parse, b)
    ensures Consistent(parse, Do(parse, w, step).store) <==> KeepsColumns(parse, w, step)
  {
    match step
    case Submit(person, uuid, member, metadata, now) =>
      var t := Do(parse, w, step).store;
      forall l | l in t.rows && l.table == Members ensures ColumnsAgree(parse, t.rows[l]) {
        assert t.rows[l] == w.store.rows[l];
      }
    case Begin(_) =>
    case Execute(b) => if b in w.pending { LateBatchKeepsColumnsIff(parse, w.store, b); }
    case Drop(_) =>
  }

  lemma StepOfRun(parse: Parser, steps: seq<Step>, n: nat)
    requires n < |steps|
    ensures Run(parse, steps[..n + 1]) == Do(parse, Run(parse, steps[..n]), steps[n])
    ensures Guarded(Run(parse, steps[..n]))
    ensures forall b :: b in Run(parse, steps[..n]).pending ==> InStep(parse, b)
  {
    NextMoment(parse, steps, n);
    forall b | b in Run(parse, steps[..n]).pending ensures InStep(parse, b) { PendingInStep(parse, steps[..n], b); }
  }

  /** Over whole interleavings, of any steps: columns and blobs agree at every moment exactly when every batch
      executed on a member row was up to date with that row's columns. */
  lemma ColumnsThroughoutIff(parse: Parser, steps: seq<Step>)
    ensures (forall n :: 0 <= n <= |steps| ==> Consistent(parse, Run(parse, steps[..n]).store)) <==>
            (forall n :: 0 <= n < |steps| ==> KeepsColumns(parse, Run(parse, steps[..n]), steps[n]))
  {
    if forall n :: 0 <= n < |steps| ==> KeepsColumns(parse, Run(parse, steps[..n]), steps[n]) {
      forall n | 0 <= n <= |steps| ensures Consistent(parse, Run(parse, steps[..n]).store) {
        StaysConsistent(parse, steps, n);
      }
    }
    if forall n :: 0 <= n <= |steps| ==> Consistent(parse, Run(parse, steps[..n]).store) {
      forall n | 0 <= n < |steps| ensures KeepsColumns(parse, Run(parse, steps[..n]), steps[n]) {
        StepOfRun(parse, steps, n);
        assert Consistent(parse, Run(parse, steps[..n + 1]).store);
        StepKeepsColumnsIff(parse, Run(parse, steps[..n]), steps[n]);
      }
    }
  }

  lemma {:induction false} StaysConsistent(parse: Parser, steps: seq<Step>, n: nat)
    requires n <= |steps|
    requires forall k :: 0 <= k < |steps| ==> KeepsColumns(parse, Run(parse, steps[..k]), steps[k])
    ensures Consistent(parse, Run(parse, steps[..n]).store)
  {
    if n == 0 {
    } else {
      StaysConsistent(parse, steps, n - 1);
      StepOfRun(parse, steps, n - 1);
      StepKeepsColumnsIff(parse, Run(parse, steps[..n - 1]), steps[n - 1]);
    }
  }

  // ---- the user name -----------------------------------------------------------------------------

  /** The user name the row of `email` decodes to, absent when there is none. */
  function NameIn(parse: Parser, s: Store, email: Bytes): Option<CqlValue> {
    if Loc(Members, email) in s.rows then BlobField(parse, s.rows[Loc(Members, email)].pbData, UsernameColumn) else None
  }

  /** A user name set by the time an edit is executed survives it exactly when it is the edit's own text,
      or, for an edit of anything else, the name that was read. */
  lemma LateEditKeepsNameIff(parse: Parser, s: Store, t: Store, email: Bytes, e: Edit)
    requires PrepareEdit(parse, s, email, e).Ok? && Detail(parse, t, email).Some?
    ensures Detail(parse, s, email).Some?
    ensures NameIn(parse, Apply(t, PrepareEdit(parse, s, email, e).value), email) == NameIn(parse, t, email) <==>
              Text(Detail(parse, t, email).value.username)
              == if UsernameColumn in Touched(e) then Some(TextValue(e.text))
                 else Text(Detail(parse, s, email).value.username)
  {
    EditedFields(parse, s, email, e, UsernameColumn);
    EditSetsFields(Unmarshal(parse, s.rows[Loc(Members, email)].pbData).value, e, UsernameColumn);
  }

  /** The batch, if this step executes one on the row of `email`, brings this user name. */
  predicate BringsName(parse: Parser, w: World, step: Step, email: Bytes, name: Option<CqlValue>) {
    step.Execute? && step.batch in w.pending && WritesMember(step.batch) && step.batch.email == email ==>
      BlobField(parse, step.batch.pbData, UsernameColumn) == name
  }

  lemma StepKeepsNameIff(parse: Parser, w: World, step: Step, email: Bytes)
    requires Guarded(w) && Loc(Members, email) in w.store.rows
    requires Loc(Members, email) in Do(parse, w, step).store.rows
    ensures NameIn(parse, Do(parse, w, step).store, email) == NameIn(parse, w.store, email) <==>
              BringsName(parse, w, step, email, NameIn(parse, w.store, email))
  {
    if step.Execute? && step.batch in w.pending { assert BatchGuarded(step.batch); }
  }

  /** While a member's row lives, in any interleaving: the user name is the same at every moment
      exactly when every batch executed on the row brings that name. */
  lemma NameStaysIffBrought(parse: Parser, steps: seq<Step>, n: nat, email: Bytes)
    requires n <= |steps|
    requires forall k :: n <= k <= |steps| ==> Loc(Members, email) in Run(parse, steps[..k]).store.rows
    ensures var name := NameIn(parse, Run(parse, steps[..n]).store, email);
            (forall k :: n <= k <= |steps| ==> NameIn(parse, Run(parse, steps[..k]).store, email) == name) <==>
            (forall k :: n <= k < |steps| ==> BringsName(parse, Run(parse, steps[..k]), steps[k], email, name))
  {
    var name := NameIn(parse, Run(parse, steps[..n]).store, email);
    if forall k :: n <= k <= |steps| ==> NameIn(parse, Run(parse, steps[..k]).store, email) == name {
      forall k | n <= k < |steps| ensures BringsName(parse, Run(parse, steps[..k]), steps[k], email, name) {
        StepOfRun(parse, steps, k);
        assert NameIn(parse, Run(parse, steps[..k + 1]).store, email) == name;
        StepKeepsNameIff(parse, Run(parse, steps[..k]), steps[k], email);
      }
    }
    if forall k :: n <= k < |steps| ==> BringsName(parse, Run(parse, steps[..k]), steps[k], email, name) {
      forall k | n <= k <= |steps| ensures NameIn(parse, Run(parse, steps[..k]).store, email) == name {
        NameStays(parse, steps, n, k, email, name);
      }
    }
  }

  lemma {:induction false} NameStays(parse: Parser, steps: seq<Step>, n: nat, k: nat, email: Bytes,
                                     name: Option<CqlValue>)
    requires n <= k <= |steps|
    requires forall i :: n <= i <= |steps| ==> Loc(Members, email) in Run(parse, steps[..i]).store.rows
    requires NameIn(parse, Run(parse, steps[..n]).store, email) == name
    requires forall i :: n <= i < |steps| ==> BringsName(parse, Run(parse, steps[..i]), steps[i], email, name)
    ensures NameIn(parse, Run(parse, steps[..k]).store, email) == name
  {
    if k == n {
    } else {
      NameStays(parse, steps, n, k - 1, email, name);
      StepOfRun(parse, steps, k - 1);
      assert Loc(Members, email) in Run(parse, steps[..k]).store.rows;
      StepKeepsNameIff(parse, Run(parse, steps[..k - 1]), steps[k - 1], email);
    }
  }

  /** Step `j` is the read step that prepared this batch. */
  predicate Prepared(parse: Parser, steps: seq<Step>, j: int, b: Batch) {
    && 0 <= j < |steps| && steps[j].Begin?
    && Prepare(parse, Run(parse, steps[..j]).store, steps[j].op) == Ok(b)
  }

  lemma {:induction false} PendingWasPrepared(parse: Parser, steps: seq<Step>, b: Batch) returns (j: nat)
    requires b in Run(parse, steps).pending && WritesMember(b)
    ensures Prepared(parse, steps, j, b)
  {
    var n := |steps| - 1;
    if b in Run(parse, steps[..n]).pending {
      j := PendingWasPrepared(parse, steps[..n], b);
      assert steps[..n][..j] == steps[..j];
    } else {
      j := n;
    }
  }

  /** The user name an operation that writes a member row writes: an edit's own, or else the one it read; a
      promotion's is what the bare record it hands over reads as. */
  function NameWritten(parse: Parser, s: Store, op: Op): Option<CqlValue>
    requires op.EditMember? || op.PromoteQueued?
  {
    match op
    case EditMember(email, e) =>
      if e.TextEdit? && UsernameColumn in Touched(e) then Some(TextValue(e.text))
      else Text(Detail(parse, s, email).GetOr(EMPTY_MEMBER).username)
    case PromoteQueued(id, newId) =>
      match QueuedRecord(parse, s, Queue, id)
      case None => None
      case Some(r) => BlobField(parse, MemberBlob(WithId(r, newId).member), UsernameColumn)
  }

  lemma WritersAreEditsAndPromotions(parse: Parser, s: Store, op: Op)
    requires Prepare(parse, s, op).Ok? && WritesMember(Prepare(parse, s, op).value)
    ensures op.EditMember? || op.PromoteQueued?
    ensures BlobField(parse, Prepare(parse, s, op).value.pbData, UsernameColumn) == NameWritten(parse, s, op)
  {
    if op.EditMember? {
      EditedFields(parse, s, op.email, op.edit, UsernameColumn);
      EditSetsFields(Unmarshal(parse, s.rows[Loc(Members, op.email)].pbData).value, op.edit, UsernameColumn);
    }
  }

  /** If step `k` executes a batch on the row of `email`, its operation wrote this name, or read it when it began. */
  ghost predicate ChoosesName(parse: Parser, steps: seq<Step>, k: nat, email: Bytes, name: Option<CqlValue>)
    requires k < |steps|
  {
    forall j :: 0 <= j < k && steps[k].Execute? && Prepared(parse, steps[..k], j, steps[k].batch)
                && steps[k].batch in Run(parse, steps[..k]).pending
                && WritesMember(steps[k].batch) && steps[k].batch.email == email ==>
      NameChosen(parse, Run(parse, steps[..j]).store, steps[j], name)
  }

  predicate NameChosen(parse: Parser, s: Store, begin: Step, name: Option<CqlValue>) {
    begin.Begin? && (begin.op.EditMember? || begin.op.PromoteQueued?) && NameWritten(parse, s, begin.op) == name
  }

  lemma BringsIffChooses(parse: Parser, steps: seq<Step>, k: nat, email: Bytes, name: Option<CqlValue>)
    requires k < |steps|
    ensures BringsName(parse, Run(parse, steps[..k]), steps[k], email, name)
            <==> ChoosesName(parse, steps, k, email, name)
  {
    var w, step := Run(parse, steps[..k]), steps[k];
    if step.Execute? && step.batch in w.pending && WritesMember(step.batch) && step.batch.email == email {
      var i := PendingWasPrepared(parse, steps[..k], step.batch);
      forall j | 0 <= j < k && Prepared(parse, steps[..k], j, step.batch)
        ensures NameChosen(parse, Run(parse, steps[..j]).store, steps[j], name)
                <==> BlobField(parse, step.batch.pbData, UsernameColumn) == name
      {
        assert steps[..k][..j] == steps[..j];
        WritersAreEditsAndPromotions(parse, Run(parse, steps[..j]).store, steps[j].op);
      }
      assert NameChosen(parse, Run(parse, steps[..i]).store, steps[i], name)
             <==> BlobField(parse, step.batch.pbData, UsernameColumn) == name;
    }
  }

  /** While a member's row lives, in any interleaving: the user name is the same at every moment exactly when
      every operation executed on the row wrote that name, or had read it when it began. */
  lemma NameStaysIff(parse: Parser, steps: seq<Step>, n: nat, email: Bytes)
    requires n <= |steps|
    requires forall k :: n <= k <= |steps| ==> Loc(Members, email) in Run(parse, steps[..k]).store.rows
    ensures var name := NameIn(parse, Run(parse, steps[..n]).store, email);
            (forall k :: n <= k <= |steps| ==> NameIn(parse, Run(parse, steps[..k]).store, email) == name) <==>
            (forall k :: n <= k < |steps| ==> ChoosesName(parse, steps, k, email, name))
  {
    var name := NameIn(parse, Run(parse, steps[..n]).store, email);
    NameStaysIffBrought(parse, steps, n, email);
    forall k | n <= k < |steps|
      ensures BringsName(parse, Run(parse, steps[..k]), steps[k], email, name)
            <==> ChoosesName(parse, steps, k, email, name)
    {
      BringsIffChooses(parse, steps, k, email, name);
    }
  }

  // ---- runs in which they fail -------------------------------------------------------------------

  /** A queue entry cancelled after its promotion was prepared ends up both archived and a member:
      from every reachable state with a queue entry. */
  lemma StalePromotionDuplicates(parse: Parser, w: World, id: Bytes, newId: Option<uint64>, initiator: Bytes,
                                 now: uint64)
    requires Guarded(w) && Loc(Queue, id) in w.store.rows
    ensures var promote := Prepare(parse, w.store, PromoteQueued(id, newId));
            var cancel := Prepare(parse, w.store, CancelQueued(id, initiator, now));
            && promote.Ok? && cancel.Ok?
            && var rows := Apply(Apply(w.store, cancel.value), promote.value).rows;
               && Target(promote.value) in rows && Loc(Archive, id) in rows
               && rows[Target(promote.value)].person == rows[Loc(Archive, id)].person
  {
    OthersSucceedIffPresent(parse, w, PromoteQueued(id, newId));
    OthersSucceedIffPresent(parse, w, CancelQueued(id, initiator, now));
    CancelledThenPromoted(w.store, Prepare(parse, w.store, CancelQueued(id, initiator, now)).value,
                          Prepare(parse, w.store, PromoteQueued(id, newId)).value);
  }

  lemma CancelledThenPromoted(s: Store, cancel: Batch, promote: Batch)
    requires cancel.Move? && cancel.dst.table == Archive && promote.Promote? && cancel.person == promote.person
    requires cancel.src.table == Queue
    ensures var rows := Apply(Apply(s, cancel), promote).rows;
            && Target(promote) in rows && cancel.dst in rows
            && rows[Target(promote)].person == rows[cancel.dst].person
  {
  }

  /** Two edits of different fields prepared from the same row: the second batch brings the old
      name back in the blob, while the column keeps the new one. */
  lemma RacingEditsSplitRow(parse: Parser, w: World, email: Bytes, name: Bytes, street: Bytes)
    requires Detail(parse, w.store, email).Some? && Detail(parse, w.store, email).value.name != Some(name)
    ensures var first := Prepare(parse, w.store, EditMember(email, TextEdit(Some(NameColumn), name)));
            var second := Prepare(parse, w.store, EditMember(email, TextEdit(Some(StreetColumn), street)));
            && first.Ok? && second.Ok?
            && var t := Apply(Apply(w.store, first.value), second.value);
               && Detail(parse, t, email).Some?
               && Detail(parse, t, email).value.name == Detail(parse, w.store, email).value.name
               && NameColumn in t.rows[Loc(Members, email)].columns
               && t.rows[Loc(Members, email)].columns[NameColumn] == TextValue(name)
  {
    assert Unmarshal(parse, w.store.rows[Loc(Members, email)].pbData).value.memberData.value.Complete();
  }

  /** Two clients that both found the user name empty both set it: it changes after it was set. */
  lemma RacingUserNames(parse: Parser, w: World, email: Bytes, one: Bytes, two: Bytes)
    requires Detail(parse, w.store, email).Some? && Detail(parse, w.store, email).value.GetUsername() == []
    ensures var first := Prepare(parse, w.store, EditMember(email, TextEdit(Some(UsernameColumn), one)));
            var second := Prepare(parse, w.store, EditMember(email, TextEdit(Some(UsernameColumn), two)));
            && first.Ok? && second.Ok?
            && var s := Apply(w.store, first.value); var t := Apply(s, second.value);
               && NameIn(parse, s, email) == Some(TextValue(one)) && NameIn(parse, t, email) == Some(TextValue(two))
  {
    assert Unmarshal(parse, w.store.rows[Loc(Members, email)].pbData).value.memberData.value.Complete();
  }

  const SOME_UUID: Bytes := [0, 0, 0, 0, 0, 0, 0, 0, 0, 0, 0, 0, 0, 0, 0, 0]

  /** Two operations prepared together, executed in the order given. */
  lemma RaceIsARun(parse: Parser, steps: seq<Step>, first: Op, second: Op, x: Batch, y: Batch) returns (run: seq<Step>)
    requires AdmissibleRun(parse, steps) && !first.Goodbye? && !second.Goodbye?
    requires Prepare(parse, Run(parse, steps).store, first).Ok? && Prepare(parse, Run(parse, steps).store, second).Ok?
    requires x == Prepare(parse, Run(parse, steps).store, first).value
    requires y == Prepare(parse, Run(parse, steps).store, second).value
    ensures AdmissibleRun(parse, run) && run == steps + [Begin(first)] + [Begin(second)] + [Execute(x)] + [Execute(y)]
    ensures Run(parse, run).store == Apply(Apply(Run(parse, steps).store, x), y)
    ensures |run| == |steps| + 4 && Run(parse, run[..|run| - 1]).store == Apply(Run(parse, steps).store, x)
  {
    var a := steps + [Begin(first)];
    var b := a + [Begin(second)];
    var c := b + [Execute(x)];
    run := c + [Execute(y)];
    RunPlus(parse, steps, Begin(first));
    RunPlus(parse, a, Begin(second));
    RunPlus(parse, b, Execute(x));
    RunPlus(parse, c, Execute(y));
    assert run[..|run| - 1] == c;
  }

  /** So there are runs that leave a person in two places, whoever applies. */
  lemma SomeoneEndsInTwoPlaces(parse: Parser, m: Member) returns (run: seq<Step>)
    requires m.Complete()
    ensures AdmissibleRun(parse, run) && !OnePlaceEach(Run(parse, run).store)
  {
    var steps := JoinsQueue(parse, [], 0, SOME_UUID, m);
    var promote, cancel := PromoteQueued(SOME_UUID, None), CancelQueued(SOME_UUID, [], 0);
    ReachableGuard(parse, steps);
    StalePromotionDuplicates(parse, Run(parse, steps), SOME_UUID, None, [], 0);
    run := RaceIsARun(parse, steps, cancel, promote, Prepare(parse, Run(parse, steps).store, cancel).value,
                      Prepare(parse, Run(parse, steps).store, promote).value);
    assert Loc(Archive, SOME_UUID) in Run(parse, run).store.rows;
  }

  /** Runs that bring a rejected application back without its form: an upload executed after the rejection. */
  lemma SomeFormIsLost(parse: Parser, m: Member) returns (run: seq<Step>)
    requires m.Complete()
    ensures AdmissibleRun(parse, run) && !AllForms(Run(parse, run).store)
  {
    var steps := Applies(parse, [], 0, SOME_UUID, m);
    var reject, upload := RejectApplicant(SOME_UUID, [], 0), Upload(SOME_UUID, [1]);
    run := RaceIsARun(parse, steps, reject, upload, Prepare(parse, Run(parse, steps).store, reject).value,
                      Prepare(parse, Run(parse, steps).store, upload).value);
    assert Loc(Application, SOME_UUID) in Run(parse, run).store.rows;
    assert EmailVerifiedColumn !in Run(parse, run).store.rows[Loc(Application, SOME_UUID)].columns;
  }

  /** And runs that leave a row whose columns contradict its blob, for every member whose encoding
      reads back as an agreement with a member in it. */
  lemma SomeRowIsSplit(parse: Parser, m: Member, a: Agreement) returns (run: seq<Step>)
    requires m.Complete() && parse(m) == Some(a) && a.Complete() && a.memberData.Some?
    ensures AdmissibleRun(parse, run) && !Consistent(parse, Run(parse, run).store)
  {
    var steps := JoinsMembers(parse, [], 0, SOME_UUID, m);
    var email, name := m.GetEmail(), a.memberData.value.name.value + [0];
    var rename := EditMember(email, TextEdit(Some(NameColumn), name));
    var move := EditMember(email, TextEdit(Some(StreetColumn), []));
    RacingEditsSplitRow(parse, Run(parse, steps), email, name, []);
    run := RaceIsARun(parse, steps, rename, move, Prepare(parse, Run(parse, steps).store, rename).value,
                      Prepare(parse, Run(parse, steps).store, move).value);
    assert Detail(parse, Run(parse, run).store, email).value.name != Some(name);
    assert !ColumnsAgree(parse, Run(parse, run).store.rows[Loc(Members, email)]);
  }

  /** And runs in which a user name is set and then becomes another. */
  lemma SomeNameChanges(parse: Parser, m: Member, a: Agreement, one: Bytes, two: Bytes) returns (run: seq<Step>)
    requires m.Complete() && parse(m) == Some(a) && a.Complete() && a.memberData.Some?
    requires a.memberData.value.GetUsername() == []
    ensures AdmissibleRun(parse, run) && run != []
    ensures NameIn(parse, Run(parse, run[..|run| - 1]).store, m.GetEmail()) == Some(TextValue(one))
    ensures NameIn(parse, Run(parse, run).store, m.GetEmail()) == Some(TextValue(two))
  {
    var steps := JoinsMembers(parse, [], 0, SOME_UUID, m);
    var first := EditMember(m.GetEmail(), TextEdit(Some(UsernameColumn), one));
    var second := EditMember(m.GetEmail(), TextEdit(Some(UsernameColumn), two));
    RacingUserNames(parse, Run(parse, steps), m.GetEmail(), one, two);
    run := RaceIsARun(parse, steps, first, second, Prepare(parse, Run(parse, steps).store, first).value,
                      Prepare(parse, Run(parse, steps).store, second).value);
  }
}
