/** Membership comes from an approved queue entry, in every interleaving of any steps. */
module Approval {
  import opened ByteStrings
  import opened Records
  import opened Store
  import opened Interleaving

  /** `q` is a member under this email, or a batch that writes such a row is on its way. */
  ghost predicate MemberUnder(w: World, q: Person, email: Bytes) {
    || (Loc(Members, email) in w.store.rows && w.store.rows[Loc(Members, email)].person == q)
    || (exists b :: b in w.pending && b.person == q && (b.Rewrite? || b.Promote?) && b.email == email)
  }

  /** `q` is on the way out, or a batch that writes such a row is on its way. */
  ghost predicate Departing(w: World, q: Person) {
    || (exists l :: l in w.store.rows && l.table == Dequeue && w.store.rows[l].person == q)
    || (exists b :: b in w.pending && b.person == q && b.Move? && b.dst.table == Dequeue)
  }

  /** A queue row of `q` with scan, approver, approval time and this email. */
  predicate ApprovedEntry(w: World, id: Bytes, q: Person, email: Bytes) {
    && Loc(Queue, id) in w.store.rows && w.store.rows[Loc(Queue, id)].person == q
    && Gated(w.store.rows[Loc(Queue, id)].pbData)
    && w.store.rows[Loc(Queue, id)].pbData.agreement.memberData.GetOr(EMPTY_MEMBER).GetEmail() == email
  }

  ghost predicate WasApproved(parse: Parser, steps: seq<Step>, q: Person, email: Bytes) {
    exists n, id :: 0 <= n <= |steps| && ApprovedEntry(Run(parse, steps[..n]), id, q, email)
  }

  /** Only reading an approved queue entry makes a new member, under the email of that entry. */
  lemma StepAdmitsOnlyApproved(parse: Parser, w: World, step: Step, q: Person, email: Bytes) returns (id: Bytes)
    requires Guarded(w) && MemberUnder(Do(parse, w, step), q, email)
    ensures MemberUnder(w, q, email) || ApprovedEntry(w, id, q, email)
  {
    id := [];
    match step
    case Submit(_, _, _, _, _) =>
    case Begin(op) =>
      if op.PromoteQueued? {
        id := op.id;
        assert RowGuarded(w.store, Loc(Queue, id));
      }
    case Execute(b) => if b in w.pending { assert BatchGuarded(b); }
    case Drop(_) =>
  }

  /** Only reading a member row makes someone depart. */
  lemma StepReleasesOnlyMembers(parse: Parser, w: World, step: Step, q: Person)
    requires Guarded(w) && Departing(Do(parse, w, step), q)
    ensures Departing(w, q) || exists email :: MemberUnder(w, q, email)
  {
    match step
    case Submit(_, _, _, _, _) =>
    case Begin(op) =>
      if op.Goodbye? && Prepare(parse, w.store, op).Ok? {
        assert MemberUnder(w, Prepare(parse, w.store, op).value.person, op.email);
      }
    case Execute(b) => if b in w.pending { assert BatchGuarded(b); }
    case Drop(_) =>
  }

  lemma ApprovedEarlier(parse: Parser, steps: seq<Step>, n: nat, q: Person, email: Bytes)
    requires n <= |steps| && WasApproved(parse, steps[..n], q, email)
    ensures WasApproved(parse, steps, q, email)
  {
    var m, id :| 0 <= m <= n && ApprovedEntry(Run(parse, steps[..n][..m]), id, q, email);
    assert steps[..n][..m] == steps[..m];
  }

  /** Over whole runs, whatever the steps: whoever is in `members`, or about to be written there, was
      earlier an approved entry of the queue, under the very email that is the member key. */
  lemma {:induction false} MembersWereApproved(parse: Parser, steps: seq<Step>, q: Person, email: Bytes)
    requires MemberUnder(Run(parse, steps), q, email)
    ensures WasApproved(parse, steps, q, email)
  {
    var n := |steps| - 1;
    if steps == [] {
    } else {
      var w := Run(parse, steps[..n]);
      ReachableGuard(parse, steps[..n]);
      var id := StepAdmitsOnlyApproved(parse, w, steps[n], q, email);
      if MemberUnder(w, q, email) {
        MembersWereApproved(parse, steps[..n], q, email);
        ApprovedEarlier(parse, steps, n, q, email);
      } else {
        assert ApprovedEntry(Run(parse, steps[..n]), id, q, email);
      }
    }
  }

  /** And so was whoever departs. */
  lemma {:induction false} DepartingWereApproved(parse: Parser, steps: seq<Step>, q: Person)
    requires Departing(Run(parse, steps), q)
    ensures exists email :: WasApproved(parse, steps, q, email)
  {
    var n := |steps| - 1;
    if steps == [] {
    } else {
      var w := Run(parse, steps[..n]);
      if Departing(w, q) {
        DepartingWereApproved(parse, steps[..n], q);
        var email :| WasApproved(parse, steps[..n], q, email);
        ApprovedEarlier(parse, steps, n, q, email);
      } else {
        ReachableGuard(parse, steps[..n]);
        StepReleasesOnlyMembers(parse, w, steps[n], q);
        var email :| MemberUnder(w, q, email);
        MembersWereApproved(parse, steps[..n], q, email);
        ApprovedEarlier(parse, steps, n, q, email);
      }
    }
  }
}
