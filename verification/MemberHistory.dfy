/** What becomes of a member over a whole sequential run: the fold of the edits of that member, whatever
    happens to everybody else in between. */
module MemberHistory {
  import opened ByteStrings
  import opened Records
  import opened Store
  import opened Interleaving
  import opened Edits
  import opened Sequential

  /** The edits of this member, in order. */
  function EditsOf(cs: seq<Command>, email: Bytes): seq<Edit> {
    if cs == [] then [] else EditsOf(cs[..|cs| - 1], email) + EditOf(cs[|cs| - 1], email)
  }

  function EditOf(c: Command, email: Bytes): seq<Edit> {
    if c.Perform? && c.op.EditMember? && c.op.email == email then [c.op.edit] else []
  }

  // ---- members do not come back ------------------------------------------------------------------

  /** `q` applied under this email and has come as far as `members`. */
  ghost predicate Settled(w: World, q: Person, email: Bytes) {
    q in w.emails && w.emails[q] == email && HasRank(w, q, 2)
  }

  lemma MemberIsSettled(parse: Parser, w: World, email: Bytes)
    requires SeqInv(parse, w) && Loc(Members, email) in w.store.rows
    ensures Settled(w, w.store.rows[Loc(Members, email)].person, email)
  {
    assert RowOk(w, Loc(Members, email), w.store.rows[Loc(Members, email)]);
  }

  lemma NextKeepsSettled(parse: Parser, w: World, c: Command, q: Person, email: Bytes)
    requires SeqInv(parse, w) && AdmissibleCommand(w, c) && Settled(w, q, email)
    ensures Settled(Next(parse, w, c), q, email)
  {
    NextRaisesRank(parse, w, c, q, 2);
  }

  /** Nobody settled enters `members` again. */
  lemma NoReturn(parse: Parser, w: World, c: Command, q: Person, email: Bytes)
    requires SeqInv(parse, w) && AdmissibleCommand(w, c) && Settled(w, q, email)
    requires Loc(Members, email) in Next(parse, w, c).store.rows
    ensures Loc(Members, email) in w.store.rows
  {
    if c.Request? {
      RequestAddsNoMember(parse, w, c, Loc(Members, email));
    } else if Prepare(parse, w.store, c.op).Ok? {
      var b := Prepare(parse, w.store, c.op).value;
      OperationMovesOneRow(parse, w, c.op);
      PreparedIsOk(parse, w, c.op);
      if b.Promote? && b.email == email {
        OwnerIsUnique(w, Loc(Members, email), q, b.person);
      }
    }
  }

  // ---- one command -------------------------------------------------------------------------------

  lemma EditReadsItsRow(parse: Parser, s: Store, t: Store, email: Bytes, e: Edit)
    requires Loc(Members, email) in s.rows && Loc(Members, email) in t.rows
    requires s.rows[Loc(Members, email)] == t.rows[Loc(Members, email)]
    ensures var l := Loc(Members, email);
            && l in PerformEdit(parse, s, email, e).rows && l in PerformEdit(parse, t, email, e).rows
            && PerformEdit(parse, s, email, e).rows[l] == PerformEdit(parse, t, email, e).rows[l]
  {
  }

  lemma EditAlone(parse: Parser, w: World, email: Bytes, e: Edit)
    requires Loc(Members, email) in w.store.rows
    ensures Atomically(parse, w, EditMember(email, e)).store == PerformEdit(parse, w.store, email, e)
    ensures Loc(Members, email) in PerformEdit(parse, w.store, email, e).rows
  {
  }

  lemma OthersPassBy(parse: Parser, w: World, op: Op, email: Bytes)
    requires SeqInv(parse, w) && Admissible(w, Begin(op)) && !(op.EditMember? && op.email == email)
    requires Loc(Members, email) in w.store.rows && Loc(Members, email) in Atomically(parse, w, op).store.rows
    ensures Atomically(parse, w, op).store.rows[Loc(Members, email)] == w.store.rows[Loc(Members, email)]
  {
    if Prepare(parse, w.store, op).Ok? {
      var b := Prepare(parse, w.store, op).value;
      OperationMovesOneRow(parse, w, op);
      CarriedPast(w.store, Atomically(parse, w, op).store, b, Moves(op), Loc(Members, email));
    }
  }

  /** A member who stays is changed by edits of that member only. */
  lemma NextOnMember(parse: Parser, w: World, c: Command, email: Bytes)
    requires SeqInv(parse, w) && AdmissibleCommand(w, c)
    requires Loc(Members, email) in w.store.rows && Loc(Members, email) in Next(parse, w, c).store.rows
    ensures var l := Loc(Members, email); var row := Next(parse, w, c).store.rows[l];
            if EditOf(c, email) == [] then row == w.store.rows[l]
            else
              && l in PerformEdit(parse, w.store, email, c.op.edit).rows
              && row == PerformEdit(parse, w.store, email, c.op.edit).rows[l]
  {
    if c.Request? {
      RequestAddsNoMember(parse, w, c, Loc(Members, email));
    } else if EditOf(c, email) == [] {
      OthersPassBy(parse, w, c.op, email);
    } else {
      EditAlone(parse, w, email, c.op.edit);
    }
  }

  lemma CarriedPast(s: Store, t: Store, b: Batch, moved: bool, l: Loc)
    requires Carried(s, t, b, moved) && l in s.rows && l in t.rows && (moved || l != Target(b))
    ensures t.rows[l] == s.rows[l]
  {
  }

  // ---- whole runs ------------------------------------------------------------------------------

  /** The member's row in `t` is what the edits, run one after another from `s`, make of it. */
  ghost predicate IsEdited(parse: Parser, s: Store, t: Store, email: Bytes, edits: seq<Edit>) {
    var l, edited := Loc(Members, email), PerformEdits(parse, s, email, edits);
    l in t.rows && l in edited.rows && t.rows[l] == edited.rows[l]
  }

  lemma OneMoreEdit(parse: Parser, s: Store, t: Store, email: Bytes, edits: seq<Edit>, e: Edit)
    requires IsEdited(parse, s, t, email, edits)
    ensures IsEdited(parse, s, PerformEdit(parse, t, email, e), email, edits + [e])
  {
    EditReadsItsRow(parse, t, PerformEdits(parse, s, email, edits), email, e);
    assert (edits + [e])[..|edits|] == edits;
  }

  lemma OneMoreCommand(parse: Parser, s: Store, w: World, c: Command, email: Bytes, edits: seq<Edit>)
    requires SeqInv(parse, w) && AdmissibleCommand(w, c)
    requires IsEdited(parse, s, w.store, email, edits) && Loc(Members, email) in Next(parse, w, c).store.rows
    ensures IsEdited(parse, s, Next(parse, w, c).store, email, edits + EditOf(c, email))
  {
    NextOnMember(parse, w, c, email);
    if EditOf(c, email) == [] {
      assert edits + [] == edits;
    } else {
      OneMoreEdit(parse, s, w.store, email, edits, c.op.edit);
    }
  }

  lemma FollowStep(parse: Parser, s: Store, w: World, c: Command, q: Person, email: Bytes, edits: seq<Edit>)
    requires SeqInv(parse, w) && AdmissibleCommand(w, c) && Settled(w, q, email)
    requires Loc(Members, email) in w.store.rows ==> IsEdited(parse, s, w.store, email, edits)
    ensures Settled(Next(parse, w, c), q, email)
    ensures Loc(Members, email) in Next(parse, w, c).store.rows ==>
              IsEdited(parse, s, Next(parse, w, c).store, email, edits + EditOf(c, email))
  {
    NextKeepsSettled(parse, w, c, q, email);
    if Loc(Members, email) in Next(parse, w, c).store.rows {
      NoReturn(parse, w, c, q, email);
      OneMoreCommand(parse, s, w, c, email, edits);
    }
  }

  lemma LastOfRun(parse: Parser, all: seq<Command>)
    requires all != [] && AdmissibleCommands(parse, all)
    ensures var w, c := RunAll(parse, all[..|all| - 1]), all[|all| - 1];
            && AdmissibleCommands(parse, all[..|all| - 1]) && AdmissibleCommand(w, c)
            && RunAll(parse, all) == Next(parse, w, c)
  {
  }

  lemma LastCommand(parse: Parser, prior: seq<Command>, before: seq<Command>, c: Command)
    requires AdmissibleCommands(parse, prior + (before + [c]))
    ensures AdmissibleCommands(parse, prior + before) && AdmissibleCommand(RunAll(parse, prior + before), c)
    ensures RunAll(parse, prior + (before + [c])) == Next(parse, RunAll(parse, prior + before), c)
  {
    var all := prior + (before + [c]);
    LastOfRun(parse, all);
    assert all[..|all| - 1] == prior + before && all[|all| - 1] == c;
  }

  lemma {:induction false} Follow(parse: Parser, prior: seq<Command>, more: seq<Command>, q: Person, email: Bytes)
    requires AdmissibleCommands(parse, prior + more) && Settled(RunAll(parse, prior), q, email)
    requires Loc(Members, email) in RunAll(parse, prior).store.rows
    ensures Settled(RunAll(parse, prior + more), q, email)
    ensures Loc(Members, email) in RunAll(parse, prior + more).store.rows ==>
              IsEdited(parse, RunAll(parse, prior).store, RunAll(parse, prior + more).store, email,
                       EditsOf(more, email))
  {
    if more == [] {
      assert prior + more == prior;
    } else {
      var before, c := more[..|more| - 1], more[|more| - 1];
      assert more == before + [c];
      LastCommand(parse, prior, before, c);
      SequentialInv(parse, prior + before);
      Follow(parse, prior, before, q, email);
      FollowStep(parse, RunAll(parse, prior).store, RunAll(parse, prior + before), c, q, email, EditsOf(before, email));
    }
  }

  lemma {:induction false} PrefixIsAdmissible(parse: Parser, prior: seq<Command>, more: seq<Command>)
    requires AdmissibleCommands(parse, prior + more)
    ensures AdmissibleCommands(parse, prior)
  {
    if more == [] {
      assert prior + more == prior;
    } else {
      assert more == more[..|more| - 1] + [more[|more| - 1]];
      LastCommand(parse, prior, more[..|more| - 1], more[|more| - 1]);
      PrefixIsAdmissible(parse, prior, more[..|more| - 1]);
    }
  }

  /** A member who is there at one moment and at a later one has, then, the row that the edits of that
      member in between make of it, one after another, as if nothing else had happened. */
  lemma MemberIsFoldOfEdits(parse: Parser, prior: seq<Command>, more: seq<Command>, email: Bytes)
    requires AdmissibleCommands(parse, prior + more)
    requires Loc(Members, email) in RunAll(parse, prior).store.rows
    requires Loc(Members, email) in RunAll(parse, prior + more).store.rows
    ensures IsEdited(parse, RunAll(parse, prior).store, RunAll(parse, prior + more).store, email, EditsOf(more, email))
  {
    PrefixIsAdmissible(parse, prior, more);
    SequentialInv(parse, prior);
    MemberIsSettled(parse, RunAll(parse, prior), email);
    Follow(parse, prior, more, RunAll(parse, prior).store.rows[Loc(Members, email)].person, email);
  }

  /** So a user name, once set and not empty, is the same whenever the member is there. */
  lemma UserNameIsFinalInRuns(parse: Parser, prior: seq<Command>, more: seq<Command>, email: Bytes)
    requires AdmissibleCommands(parse, prior + more)
    requires Detail(parse, RunAll(parse, prior).store, email).Some?
    requires Detail(parse, RunAll(parse, prior).store, email).value.GetUsername() != []
    requires Loc(Members, email) in RunAll(parse, prior + more).store.rows
    ensures Detail(parse, RunAll(parse, prior + more).store, email).Some?
    ensures Detail(parse, RunAll(parse, prior + more).store, email).value.username
            == Detail(parse, RunAll(parse, prior).store, email).value.username
  {
    MemberIsFoldOfEdits(parse, prior, more, email);
    UserNameIsFinal(parse, RunAll(parse, prior).store, email, EditsOf(more, email));
  }

  /** And with no edit of its own in between, a member is as it was. */
  lemma OthersLeaveMemberAlone(parse: Parser, prior: seq<Command>, more: seq<Command>, email: Bytes)
    requires AdmissibleCommands(parse, prior + more) && EditsOf(more, email) == []
    requires Loc(Members, email) in RunAll(parse, prior).store.rows
    requires Loc(Members, email) in RunAll(parse, prior + more).store.rows
    ensures RunAll(parse, prior + more).store.rows[Loc(Members, email)]
            == RunAll(parse, prior).store.rows[Loc(Members, email)]
  {
    MemberIsFoldOfEdits(parse, prior, more, email);
  }
}
