/** When nobody is lost, whoever applies under whatever email: exactly, batch by batch and over whole runs. */
module Conservation {
  import opened ByteStrings
  import opened Records
  import opened Store
  import opened Interleaving
  import opened Sequential
  import opened Journeys

  predicate HasRow(s: Store, q: Person) {
    exists k :: k in s.rows && s.rows[k].person == q
  }

  ghost predicate KeepsEveryone(s: Store, t: Store) {
    forall l :: l in s.rows ==> HasRow(t, s.rows[l].person)
  }

  /** `l` is not the only row somebody else has outside the two places the batch touches. */
  predicate IsSpare(s: Store, b: Batch, l: Loc) {
    l in s.rows && s.rows[l].person != b.person ==>
      exists k :: k in s.rows && k != Source(b) && k != Target(b) && s.rows[k].person == s.rows[l].person
  }

  /** A batch loses nobody exactly when whoever else has a row in one of its two places has another one elsewhere. */
  lemma LosesNobodyIff(s: Store, b: Batch)
    requires b.Move? ==> b.src != b.dst
    ensures KeepsEveryone(s, Apply(s, b)) <==> IsSpare(s, b, Source(b)) && IsSpare(s, b, Target(b))
  {
    var t := Apply(s, b);
    TargetIsHeld(s, b);
    if IsSpare(s, b, Source(b)) && IsSpare(s, b, Target(b)) {
      forall l | l in s.rows ensures HasRow(t, s.rows[l].person) {
        if s.rows[l].person == b.person {
          assert t.rows[Target(b)].person == b.person;
        } else {
          var k :| k in s.rows && k != Source(b) && k != Target(b) && s.rows[k].person == s.rows[l].person;
          ApplyFrame(s, b, k);
        }
      }
    }
    if KeepsEveryone(s, t) {
      Survives(s, b, Source(b));
      Survives(s, b, Target(b));
    }
  }

  lemma TargetIsHeld(s: Store, b: Batch)
    requires b.Move? ==> b.src != b.dst
    ensures Target(b) in Apply(s, b).rows && Apply(s, b).rows[Target(b)].person == b.person
    ensures forall k :: k in Apply(s, b).rows && k != Target(b) ==>
              k in s.rows && k != Source(b) && Apply(s, b).rows[k] == s.rows[k]
  {
  }

  lemma Survives(s: Store, b: Batch, l: Loc)
    requires (b.Move? ==> b.src != b.dst) && KeepsEveryone(s, Apply(s, b))
    ensures IsSpare(s, b, l)
  {
    if l in s.rows && s.rows[l].person != b.person {
      TargetIsHeld(s, b);
      var k :| k in Apply(s, b).rows && Apply(s, b).rows[k].person == s.rows[l].person;
      assert k in s.rows && k != Source(b) && k != Target(b);
    }
  }

  // ---- whole runs ------------------------------------------------------------------------------

  /** The batch a step applies, if any. */
  function Applied(w: World, step: Step): Option<Batch> {
    match step
    case Submit(person, uuid, member, metadata, now) =>
      (match PrepareRequest(person, uuid, member, metadata, now)
       case Err(_) => None
       case Ok(b) => Some(b))
    case Begin(_) => None
    case Execute(b) => if b in w.pending then Some(b) else None
    case Drop(_) => None
  }

  /** The step applies no batch, or one that takes nobody else's only row. */
  predicate Spares(w: World, step: Step) {
    match Applied(w, step)
    case None => true
    case Some(b) => IsSpare(w.store, b, Source(b)) && IsSpare(w.store, b, Target(b))
  }

  lemma StepLosesNobodyIff(parse: Parser, w: World, step: Step)
    requires Guarded(w)
    ensures KeepsEveryone(w.store, Do(parse, w, step).store) <==> Spares(w, step)
  {
    match Applied(w, step)
    case None => assert Do(parse, w, step).store == w.store;
    case Some(b) =>
      if step.Execute? { assert BatchGuarded(b); }
      LosesNobodyIff(w.store, b);
  }

  lemma {:induction false} KeptSince(parse: Parser, steps: seq<Step>, m: nat, n: nat)
    requires m <= n <= |steps|
    requires forall i :: 0 <= i < |steps| ==> Spares(Run(parse, steps[..i]), steps[i])
    ensures KeepsEveryone(Run(parse, steps[..m]).store, Run(parse, steps[..n]).store)
  {
    if n == m {
    } else {
      KeptSince(parse, steps, m, n - 1);
      NextMoment(parse, steps, n - 1);
      StepLosesNobodyIff(parse, Run(parse, steps[..n - 1]), steps[n - 1]);
    }
  }

  /** Over any interleaving of any steps: everyone in the store at one moment is in it at every later one
      exactly when no step takes anybody else's only row. */
  lemma NobodyIsLostIff(parse: Parser, steps: seq<Step>)
    ensures (forall m, n :: 0 <= m <= n <= |steps| ==>
               KeepsEveryone(Run(parse, steps[..m]).store, Run(parse, steps[..n]).store)) <==>
            (forall n :: 0 <= n < |steps| ==> Spares(Run(parse, steps[..n]), steps[n]))
  {
    if forall n :: 0 <= n < |steps| ==> Spares(Run(parse, steps[..n]), steps[n]) {
      forall m, n | 0 <= m <= n <= |steps|
        ensures KeepsEveryone(Run(parse, steps[..m]).store, Run(parse, steps[..n]).store)
      {
        KeptSince(parse, steps, m, n);
      }
    }
    if forall m, n :: 0 <= m <= n <= |steps| ==>
         KeepsEveryone(Run(parse, steps[..m]).store, Run(parse, steps[..n]).store) {
      forall n | 0 <= n < |steps| ensures Spares(Run(parse, steps[..n]), steps[n]) {
        NextMoment(parse, steps, n);
        assert KeepsEveryone(Run(parse, steps[..n]).store, Run(parse, steps[..n + 1]).store);
        StepLosesNobodyIff(parse, Run(parse, steps[..n]), steps[n]);
      }
    }
  }

  /** For a promotion while everyone is in one place and its record still queued: exactly when the member
      key is free. */
  lemma PromotionKeepsEveryoneIffKeyIsFree(s: Store, r: MemberWithKey)
    requires OnePlaceEach(s) && PreparePromotion(r).Ok?
    requires Loc(Queue, r.key) in s.rows && s.rows[Loc(Queue, r.key)].person == r.person
    ensures KeepsEveryone(s, Apply(s, PreparePromotion(r).value)) <==> Loc(Members, r.member.GetEmail()) !in s.rows
  {
    var b := PreparePromotion(r).value;
    LosesNobodyIff(s, b);
    if Target(b) in s.rows { assert s.rows[Target(b)].person != b.person; }
  }

  // ---- runs that lose somebody -------------------------------------------------------------------

  const FIRST_UUID: Bytes := [1, 0, 0, 0, 0, 0, 0, 0, 0, 0, 0, 0, 0, 0, 0, 0]
  const SECOND_UUID: Bytes := [2, 0, 0, 0, 0, 0, 0, 0, 0, 0, 0, 0, 0, 0, 0, 0]
  const THIRD_UUID: Bytes := [3, 0, 0, 0, 0, 0, 0, 0, 0, 0, 0, 0, 0, 0, 0, 0]

  /** Two persons become members under one email, one after the other: the first is nowhere any more. */
  lemma SharedEmailLosesSomeone(parse: Parser, m: Member, n: Member) returns (before: seq<Step>, run: seq<Step>)
    requires m.Complete() && n.Complete() && m.GetEmail() == n.GetEmail()
    ensures before <= run && HasRow(Run(parse, before).store, 0) && !HasRow(Run(parse, run).store, 0)
  {
    before := JoinsMembers(parse, [], 0, FIRST_UUID, m);
    run := JoinsMembers(parse, before, 1, SECOND_UUID, n);
    assert Loc(Members, m.GetEmail()) in Run(parse, before).store.rows;
  }

  /** Someone joins and leaves, with the batch of the goodbye still pending. */
  lemma JoinsAndLeaves(parse: Parser, m: Member, a: Agreement) returns (run: seq<Step>, b: Batch)
    requires m.Complete() && parse(m) == Some(a) && a.Complete() && a.metadata.Some?
    ensures Run(parse, run).store.rows.Keys == {Loc(Dequeue, SECOND_UUID)} && b in Run(parse, run).pending
    ensures Run(parse, run).store.rows[Loc(Dequeue, SECOND_UUID)].person == 0
    ensures b.Move? && b.src == Loc(Members, m.GetEmail()) && b.dst == Loc(Dequeue, SECOND_UUID) && b.person == 0
  {
    var joined := JoinsMembers(parse, [], 0, FIRST_UUID, m);
    var goodbye := Goodbye(m.GetEmail(), [], [], 0, SECOND_UUID);
    b := Prepare(parse, Run(parse, joined).store, goodbye).value;
    run := Operate(parse, joined, goodbye);
  }

  /** Nor is a free member key enough: a goodbye executed, and once more after somebody else
      was promoted to the key it left free, loses that member. */
  lemma RepeatedGoodbyeLosesSomeone(parse: Parser, m: Member, n: Member, a: Agreement)
    returns (before: seq<Step>, run: seq<Step>)
    requires m.Complete() && n.Complete() && m.GetEmail() == n.GetEmail()
    requires parse(m) == Some(a) && a.Complete() && a.metadata.Some?
    ensures before <= run && HasRow(Run(parse, before).store, 1) && !HasRow(Run(parse, run).store, 1)
  {
    var left, b := JoinsAndLeaves(parse, m, a);
    before := JoinsMembers(parse, left, 1, THIRD_UUID, n);
    run := before + [Execute(b)];
    RunPlus(parse, before, Execute(b));
    OnlyRowTaken(Run(parse, before).store, b, 1);
  }

  lemma OnlyRowTaken(s: Store, b: Batch, q: Person)
    requires Source(b) in s.rows && s.rows[Source(b)].person == q != b.person
    requires b.Move? && b.src != b.dst && forall k :: k in s.rows && s.rows[k].person == q ==> k == Source(b)
    ensures HasRow(s, q) && !HasRow(Apply(s, b), q)
  {
    TargetIsHeld(s, b);
  }
}
