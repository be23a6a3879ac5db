/** Runs of the account batch as a whole: on the store they are sequential runs, and which accounts they
    delete is a matter of who is in which group before they start. */
module BatchRuns {
  import opened ByteStrings
  import opened Records
  import opened Decimal
  import opened Store
  import opened Interleaving
  import opened Sequential
  import opened Accounts

  // ---- the store ---------------------------------------------------------------------------------

  /** The record as the enumeration of its table hands it out. */
  predicate AsStored(parse: Parser, s: Store, t: Table, r: MemberWithKey) {
    QueuedRecord(parse, s, t, r.key) == Some(r)
  }

  function AssignedId(u: State, r: MemberWithKey): Option<uint64> {
    if r.member.username.Some? then Some(NextUid(u.greatest)) else None
  }

  /** What one request, one departure come to. */
  function PromotionOf(noop: bool, u: State, r: MemberWithKey, f: Faults): seq<Command> {
    if Takes(noop, u, r, f) then [Perform(PromoteQueued(r.key, AssignedId(u, r)))] else []
  }

  function ArchivingOf(noop: bool, d: Departure): seq<Command> {
    if IsArchived(noop, d) then [Perform(ArchiveDeparted(d.record.key))] else []
  }

  /** The promotions and archivings of a run that take effect. */
  function Promotions(noop: bool, s: State, rs: seq<MemberWithKey>, faults: nat -> Faults): seq<Command> {
    if rs == [] then []
    else
      var n := |rs| - 1;
      Promotions(noop, s, rs[..n], faults) + PromotionOf(noop, CreateAll(noop, s, rs[..n], faults), rs[n], faults(n))
  }

  function Archivings(noop: bool, ds: seq<Departure>): seq<Command> {
    if ds == [] then [] else Archivings(noop, ds[..|ds| - 1]) + ArchivingOf(noop, ds[|ds| - 1])
  }

  lemma OneMore(parse: Parser, all: seq<Command>, c: Command)
    requires c.Perform? && !c.op.Goodbye?
    ensures RunAll(parse, all + [c]) == Next(parse, RunAll(parse, all), c)
    ensures AdmissibleCommands(parse, all + [c]) <==> AdmissibleCommands(parse, all)
  {
    assert (all + [c])[..|all|] == all;
  }

  lemma Regrouped(a: seq<Command>, b: seq<Command>, c: seq<Command>)
    ensures a + (b + c) == a + b + c
  {
  }

  /** One request, and what it adds to the run. */
  lemma CreationStep(parse: Parser, all: seq<Command>, noop: bool, u: State, r: MemberWithKey, f: Faults)
    requires u.store == RunAll(parse, all).store && AsStored(parse, u.store, Queue, r)
    ensures var more := all + PromotionOf(noop, u, r, f);
            && CreateOne(noop, u, r, f).store == RunAll(parse, more).store
            && (AdmissibleCommands(parse, all) ==> AdmissibleCommands(parse, more))
  {
    OneMore(parse, all, Perform(PromoteQueued(r.key, AssignedId(u, r))));
    assert all + [] == all;
  }

  /** When its turn comes, the last of the requests is still stored as it was handed out. */
  lemma StillQueued(parse: Parser, noop: bool, s: State, rs: seq<MemberWithKey>, faults: nat -> Faults)
    requires rs != [] && FromQueue(s.store, rs) && AsStored(parse, s.store, Queue, rs[|rs| - 1])
    ensures AsStored(parse, CreateAll(noop, s, rs[..|rs| - 1], faults).store, Queue, rs[|rs| - 1])
  {
    UntouchedStayQueued(noop, s, rs, faults, |rs| - 1, rs[|rs| - 1].key);
  }

  lemma {:induction false} CreationsAreSequential(parse: Parser, prior: seq<Command>, noop: bool, s: State,
                                                  rs: seq<MemberWithKey>, faults: nat -> Faults)
    requires s.store == RunAll(parse, prior).store && FromQueue(s.store, rs)
    requires forall i :: 0 <= i < |rs| ==> AsStored(parse, s.store, Queue, rs[i])
    ensures CreateAll(noop, s, rs, faults).store == RunAll(parse, prior + Promotions(noop, s, rs, faults)).store
    ensures AdmissibleCommands(parse, prior) ==> AdmissibleCommands(parse, prior + Promotions(noop, s, rs, faults))
  {
    if rs == [] {
      assert prior + [] == prior;
    } else {
      var n := |rs| - 1;
      var r, u, sent := rs[n], CreateAll(noop, s, rs[..n], faults), Promotions(noop, s, rs[..n], faults);
      CreationsAreSequential(parse, prior, noop, s, rs[..n], faults);
      StillQueued(parse, noop, s, rs, faults);
      CreationStep(parse, prior + sent, noop, u, r, faults(n));
      Regrouped(prior, sent, PromotionOf(noop, u, r, faults(n)));
    }
  }

  lemma DepartureStep(parse: Parser, all: seq<Command>, noop: bool, u: State, d: Departure, g: Groups)
    requires u.store == RunAll(parse, all).store && AsStored(parse, u.store, Dequeue, d.record)
    ensures var more := all + ArchivingOf(noop, d);
            && DepartOne(noop, u, d, g).store == RunAll(parse, more).store
            && (AdmissibleCommands(parse, all) ==> AdmissibleCommands(parse, more))
  {
    OneMore(parse, all, Perform(ArchiveDeparted(d.record.key)));
    assert all + [] == all;
  }

  lemma StillDeparting(parse: Parser, noop: bool, s: State, ds: seq<Departure>, g: Groups)
    requires ds != [] && FromDequeue(s.store, ds) && AsStored(parse, s.store, Dequeue, ds[|ds| - 1].record)
    ensures AsStored(parse, DepartAll(noop, s, ds[..|ds| - 1], g).store, Dequeue, ds[|ds| - 1].record)
  {
    UntouchedKeepDeparting(noop, s, ds[..|ds| - 1], g, Loc(Dequeue, ds[|ds| - 1].record.key));
  }

  lemma {:induction false} DeparturesAreSequential(parse: Parser, prior: seq<Command>, noop: bool, s: State,
                                                   ds: seq<Departure>, g: Groups)
    requires s.store == RunAll(parse, prior).store && FromDequeue(s.store, ds)
    requires forall i :: 0 <= i < |ds| ==> AsStored(parse, s.store, Dequeue, ds[i].record)
    ensures DepartAll(noop, s, ds, g).store == RunAll(parse, prior + Archivings(noop, ds)).store
    ensures AdmissibleCommands(parse, prior) ==> AdmissibleCommands(parse, prior + Archivings(noop, ds))
  {
    if ds == [] {
      assert prior + [] == prior;
    } else {
      var n := |ds| - 1;
      var d, u, sent := ds[n], DepartAll(noop, s, ds[..n], g), Archivings(noop, ds[..n]);
      DeparturesAreSequential(parse, prior, noop, s, ds[..n], g);
      StillDeparting(parse, noop, s, ds, g);
      DepartureStep(parse, prior + sent, noop, u, d, g);
      Regrouped(prior, sent, ArchivingOf(noop, d));
    }
  }

  /** A whole run of the batch, dry or not, whatever fails in it, does to the store what a sequential run of
      promotions, with the ids it assigns, and of archivings does. So all that holds of sequential runs holds
      after it: everyone in one place, columns in step, nobody moved back. */
  lemma WholeRunIsSequential(parse: Parser, prior: seq<Command>, noop: bool, s: State, rs: seq<MemberWithKey>,
                             faults: nat -> Faults, ds: seq<Departure>, g: Groups)
    requires s.store == RunAll(parse, prior).store && FromQueue(s.store, rs)
    requires forall i :: 0 <= i < |rs| ==> AsStored(parse, s.store, Queue, rs[i])
    requires var u := CreateAll(noop, s, rs, faults).store;
             FromDequeue(u, ds) && forall i :: 0 <= i < |ds| ==> AsStored(parse, u, Dequeue, ds[i].record)
    ensures var cs := prior + Promotions(noop, s, rs, faults) + Archivings(noop, ds);
            && DepartAll(noop, CreateAll(noop, s, rs, faults), ds, g).store == RunAll(parse, cs).store
            && (AdmissibleCommands(parse, prior) ==>
                  AdmissibleCommands(parse, cs) && SeqInv(parse, RunAll(parse, cs)))
  {
    var created := prior + Promotions(noop, s, rs, faults);
    CreationsAreSequential(parse, prior, noop, s, rs, faults);
    DeparturesAreSequential(parse, created, noop, CreateAll(noop, s, rs, faults), ds, g);
    if AdmissibleCommands(parse, prior) { SequentialInv(parse, created + Archivings(noop, ds)); }
  }

  // ---- whose account is deleted --------------------------------------------------------------------

  /** The group search finds the groups that list the account's name at that moment. */
  ghost predicate Finds(d: Departure, m: Memberships) {
    d.found.Some? ==>
      forall cn :: cn in d.found.value <==> (cn, AsciiFilter(d.record.member.GetUsername())) in m
  }

  /** `name` is in no group but new-user and ignored ones. */
  ghost predicate NowhereElse(m: Memberships, g: Groups, name: Bytes) {
    forall p :: p in m && p.1 == name ==> Expected(g, p.0)
  }

  lemma FoundNowhereElse(d: Departure, g: Groups, m: Memberships)
    requires Finds(d, m)
    ensures Deletes(false, d.found, g) <==>
              d.found.Some? && NowhereElse(m, g, AsciiFilter(d.record.member.GetUsername()))
  {
    var name := AsciiFilter(d.record.member.GetUsername());
    if d.found.Some? {
      if Deletes(false, d.found, g) {
        forall p | p in m && p.1 == name ensures Expected(g, p.0) { assert p == (p.0, name); }
      }
      if NowhereElse(m, g, name) {
        forall cn | cn in d.found.value ensures Expected(g, cn) { assert (cn, name) in m; }
      }
    }
  }

  /** Creations and departures change new-user groups only, so they do not change who is elsewhere. */
  lemma ElsewhereStays(s: State, rs: seq<MemberWithKey>, faults: nat -> Faults, ds: seq<Departure>, g: Groups,
                       m: Memberships, name: Bytes)
    ensures NowhereElse(LeaveEach(false, JoinAll(false, s, rs, faults, g, m), ds, g), g, name)
            <==> NowhereElse(m, g, name)
  {
    var joined := JoinAll(false, s, rs, faults, g, m);
    forall p: (Bytes, Bytes) | !Expected(g, p.0)
      ensures p in LeaveEach(false, joined, ds, g) <==> p in m
    {
      JoinedIff(false, s, rs, faults, g, m, p);
      LeftIff(false, joined, ds, g, p);
    }
  }

  /** In a run whose searches find what the groups hold when they are made, an account that is there after the
      creations is gone at the end exactly when some departing record of its name was searched and its deletion
      went through, and that name was in no group but new-user and ignored ones before the run. */
  lemma AccountIsDeletedIff(s: State, rs: seq<MemberWithKey>, faults: nat -> Faults, ds: seq<Departure>, g: Groups,
                            m: Memberships, name: Bytes)
    requires NewUserDn(name) in CreateAll(false, s, rs, faults).accounts
    requires forall i :: 0 <= i < |ds| ==>
               Finds(ds[i], LeaveEach(false, JoinAll(false, s, rs, faults, g, m), ds[..i], g))
    ensures NewUserDn(name) !in DepartAll(false, CreateAll(false, s, rs, faults), ds, g).accounts <==>
              NowhereElse(m, g, name) && exists i :: 0 <= i < |ds| && DeletionGoesThrough(ds[i], name)
  {
    var u := CreateAll(false, s, rs, faults);
    SurvivesIffNotRemoved(false, u, ds, g, NewUserDn(name));
    forall i | 0 <= i < |ds|
      ensures Removes(false, ds[i], g, NewUserDn(name)) <==> NowhereElse(m, g, name) && DeletionGoesThrough(ds[i], name)
    {
      FoundNowhereElse(ds[i], g, LeaveEach(false, JoinAll(false, s, rs, faults, g, m), ds[..i], g));
      ElsewhereStays(s, rs, faults, ds[..i], g, m, name);
    }
  }

  predicate DeletionGoesThrough(d: Departure, name: Bytes) {
    d.found.Some? && !d.deleteFails && AsciiFilter(d.record.member.GetUsername()) == name
  }

  /** It can be an account the same run created: a new member's name that a departing one had, with no group to tell. */
  lemma FreshAccountIsDeleted(s: State, r: MemberWithKey, faults: nat -> Faults, d: Departure, g: Groups)
    requires r.member.Complete() && !faults(0).move && Adds(false, s, r, faults(0))
    requires DnOf(d.record) == DnOf(r) && d.found == Some([]) && !d.deleteFails
    ensures var u := CreateAll(false, s, [r], faults); var t := DepartAll(false, u, [d], g);
            var l := Loc(Members, r.member.GetEmail());
            && l in t.store.rows && t.store.rows[l].pbData == MemberBlob(Numbered(r, NextUid(s.greatest)).member)
            && HasAccount(u.accounts, t.store.rows[l]) && !HasAccount(t.accounts, t.store.rows[l])
  {
    var u := CreateAll(false, s, [r], faults);
    assert CreateAll(false, s, [r][..0], faults) == s && DepartAll(false, u, [d][..0], g) == u;
    DeparturesOnlyRemove(false, u, [d], g, Loc(Members, r.member.GetEmail()), DnOf(r));
  }

  // ---- dry runs ----------------------------------------------------------------------------------

  /** Request `i` as a dry run promotes it: under the number it would have had. */
  function DryRecord(s: State, rs: seq<MemberWithKey>, faults: nat -> Faults, i: nat): MemberWithKey
    requires i < |rs|
  {
    if rs[i].member.username.Some?
    then Numbered(rs[i], NextUid(CreateAll(true, s, rs[..i], faults).greatest))
    else rs[i]
  }

  lemma {:induction false} DryRunPromotes(s: State, rs: seq<MemberWithKey>, faults: nat -> Faults, l: Loc)
    returns (i: nat)
    requires l in CreateAll(true, s, rs, faults).store.rows && l.table == Members
    requires !(l in s.store.rows && CreateAll(true, s, rs, faults).store.rows[l] == s.store.rows[l])
    ensures i < |rs|
    ensures CreateAll(true, s, rs, faults).store.rows[l].pbData == MemberBlob(DryRecord(s, rs, faults, i).member)
  {
    i := 0;
    if rs == [] {
    } else {
      var n := |rs| - 1;
      var u := CreateAll(true, s, rs[..n], faults);
      PromotedRows(u.store, DryRecord(s, rs, faults, n), faults(n).move, l);
      if l in u.store.rows && CreateAll(true, s, rs, faults).store.rows[l] == u.store.rows[l] {
        i := DryRunPromotes(s, rs[..n], faults, l);
        assert rs[..n][..i] == rs[..i];
      } else {
        i := n;
      }
    }
  }

  /** At the end of a whole dry run: a member row it changed is some request's record, and has its account exactly
      when it asked for none or the directory held that name with that very number all along. */
  lemma DryRunHasAccountIff(s: State, rs: seq<MemberWithKey>, faults: nat -> Faults, ds: seq<Departure>, g: Groups,
                            l: Loc)
    returns (i: nat)
    requires var t := DepartAll(true, CreateAll(true, s, rs, faults), ds, g).store;
             l in t.rows && l.table == Members && !(l in s.store.rows && t.rows[l] == s.store.rows[l])
    ensures i < |rs|
    ensures var t := DepartAll(true, CreateAll(true, s, rs, faults), ds, g);
            && t.store.rows[l].pbData == MemberBlob(DryRecord(s, rs, faults, i).member)
            && (HasAccount(t.accounts, t.store.rows[l]) <==>
                  rs[i].member.username.Some? ==>
                    && DnOf(rs[i]) in s.accounts
                    && s.accounts[DnOf(rs[i])] == [Format(NextUid(CreateAll(true, s, rs[..i], faults).greatest))])
  {
    DeparturesOnlyRemove(true, CreateAll(true, s, rs, faults), ds, g, l, OtherDn([]));
    DryRunLeavesDirectory(s, rs, faults, ds, g);
    i := DryRunPromotes(s, rs, faults, l);
  }
}
