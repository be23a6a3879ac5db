/** The account batch: a uid for every queued member who wants an account, an LDAP entry, the
    promotion; then the departing members. */
module Accounts {
  import opened ByteStrings
  import opened Records
  import opened Decimal
  import opened Store
  import opened Cassandra

  // ---- names -----------------------------------------------------------------------------------

  /** Runes below 128 are the bytes below 128, and every other rune is made of bytes that are not,
      so dropping the one is dropping the other. */
  function AsciiFilter(s: Bytes): Bytes {
    if s == [] then []
    else AsciiFilter(s[..|s| - 1]) + if s[|s| - 1] < 128 then [s[|s| - 1]] else []
  }

  method FilterAscii(input: Bytes) returns (rv: Bytes)
    ensures rv == AsciiFilter(input)
  {
    rv := [];
    var i := 0;
    while i < |input|
      invariant 0 <= i <= |input|
      invariant rv == AsciiFilter(input[..i])
    {
      assert input[..i + 1][..i] == input[..i];
      if input[i] < 128 { rv := rv + [input[i]]; }
      i := i + 1;
    }
    assert input[..|input|] == input;
  }

  /** Byte by byte: an ASCII byte is kept and any other dropped, wherever it stands. */
  lemma {:induction false} FilterConcat(a: Bytes, b: Bytes)
    ensures AsciiFilter(a + b) == AsciiFilter(a) + AsciiFilter(b)
  {
    if b == [] {
      assert a + b == a;
    } else {
      var n := |b| - 1;
      FilterConcat(a, b[..n]);
      assert (a + b)[..|a + b| - 1] == a + b[..n];
    }
  }

  lemma FilterByte(b: byte)
    ensures AsciiFilter([b]) == if b < 128 then [b] else []
  {
    assert [b][..0] == [];
  }

  /** Only ASCII is left, and only ASCII names are left as they are. */
  lemma {:induction false} FilteredIsAscii(s: Bytes)
    ensures forall b :: b in AsciiFilter(s) ==> b < 128
    ensures |AsciiFilter(s)| <= |s|
    ensures AsciiFilter(s) == s <==> forall b :: b in s ==> b < 128
  {
    if s == [] {
    } else {
      var n := |s| - 1;
      FilteredIsAscii(s[..n]);
      InSnoc(s[..n], s[n]);
      SnocCancels(AsciiFilter(s[..n]), s[..n], s[n]);
      assert s == s[..n] + [s[n]];
      if s[n] < 128 {
        assert AsciiFilter(s) == AsciiFilter(s[..n]) + [s[n]];
      } else {
        assert s[n] in s && |AsciiFilter(s)| < |s|;
      }
    }
  }

  lemma InSnoc(s: Bytes, x: byte)
    ensures forall b :: b in s + [x] <==> b in s || b == x
  {
  }

  lemma SnocCancels(a: Bytes, b: Bytes, x: byte)
    ensures a + [x] == b + [x] <==> a == b
  {
    assert (a + [x])[..|a|] == a && (b + [x])[..|b|] == b;
  }

  // ---- the directory ---------------------------------------------------------------------------

  /** Entries under the new-user suffix are named by uid; everything else is just elsewhere. */
  datatype Dn = NewUserDn(uid: Bytes) | OtherDn(name: Bytes)

  /** The uidNumber values of each posix account. */
  type Directory = map<Dn, seq<string>>

  ghost predicate Above(d: Directory, greatest: uint64) {
    forall dn, i :: dn in d && 0 <= i < |d[dn]| && ParseUint(d[dn][i]).Some? ==> ParseUint(d[dn][i]).value <= greatest
  }

  /** The scan for the highest assigned uid, over what the search for posix accounts returns. */
  method GreatestUid(entries: seq<seq<string>>, ghost d: Directory) returns (greatest: uint64)
    requires forall dn :: dn in d ==> d[dn] in entries
    ensures greatest >= 1000 && Above(d, greatest)
    ensures forall i, j :: 0 <= i < |entries| && 0 <= j < |entries[i]| && ParseUint(entries[i][j]).Some? ==>
              ParseUint(entries[i][j]).value <= greatest
    ensures greatest == 1000 ||
            exists i, j :: 0 <= i < |entries| && 0 <= j < |entries[i]| && ParseUint(entries[i][j]) == Some(greatest)
  {
    greatest := 1000;
    for n := 0 to |entries|
      invariant greatest >= 1000
      invariant forall i, j :: 0 <= i < n && 0 <= j < |entries[i]| && ParseUint(entries[i][j]).Some? ==>
                  ParseUint(entries[i][j]).value <= greatest
      invariant greatest == 1000 ||
                exists i, j :: 0 <= i < |entries| && 0 <= j < |entries[i]| && ParseUint(entries[i][j]) == Some(greatest)
    {
      for m := 0 to |entries[n]|
        invariant greatest >= 1000
        invariant forall i, j :: 0 <= i < n && 0 <= j < |entries[i]| && ParseUint(entries[i][j]).Some? ==>
                    ParseUint(entries[i][j]).value <= greatest
        invariant forall j :: 0 <= j < m && ParseUint(entries[n][j]).Some? ==>
                    ParseUint(entries[n][j]).value <= greatest
        invariant greatest == 1000 ||
                  exists i, j :: 0 <= i < |entries| && 0 <= j < |entries[i]| &&
                    ParseUint(entries[i][j]) == Some(greatest)
      {
        var uidNumber := ParseUint(entries[n][m]);
        if uidNumber.Some? && uidNumber.value > greatest { greatest := uidNumber.value; }
      }
    }
  }

  /** No uidNumber value stands in two entries. */
  ghost predicate UniqueUids(d: Directory) {
    forall k, l, i, j :: k in d && l in d && 0 <= i < |d[k]| && 0 <= j < |d[l]| && d[k][i] == d[l][j] ==> k == l
  }

  // ---- the groups ------------------------------------------------------------------------------

  /** The configured groups: those a new user joins, and those that do not count when one departs. */
  datatype Groups = Groups(newUser: seq<Bytes>, ignored: seq<Bytes>)

  /** Who is in which group: pairs of a group and a memberUid value of it. */
  type Memberships = set<(Bytes, Bytes)>

  function Join(m: Memberships, groups: seq<Bytes>, uid: Bytes, failing: set<Bytes>): Memberships {
    m + set g | g in groups && g !in failing :: (g, uid)
  }

  /** One modification a group; a failed one is only logged. */
  method JoinEach(m0: Memberships, groups: seq<Bytes>, uid: Bytes, failing: set<Bytes>) returns (m: Memberships)
    ensures m == Join(m0, groups, uid, failing)
  {
    m := m0;
    for k := 0 to |groups|
      invariant m == Join(m0, groups[..k], uid, failing)
    {
      assert forall g :: g in groups[..k + 1] <==> g in groups[..k] || g == groups[k];
      if groups[k] !in failing { m := m + {(groups[k], uid)}; }
    }
    assert groups[..|groups|] == groups;
  }

  // ---- creating accounts -----------------------------------------------------------------------

  /** What fails for one request: adding the account, moving the record, joining some of the groups. */
  datatype Faults = Faults(add: bool, move: bool, groups: set<Bytes>)

  datatype State = State(greatest: uint64, accounts: Directory, store: Store)

  function Promoted(s: Store, r: MemberWithKey, fails: bool): Store {
    match PreparePromotion(r)
    case Err(_) => s
    case Ok(b) => if fails then s else Apply(s, b)
  }

  function DnOf(r: MemberWithKey): Dn { NewUserDn(AsciiFilter(r.member.GetUsername())) }

  /** The counter is a uint64 and goes up for every name, whether or not the addition succeeds. */
  function NextUid(greatest: uint64): uint64 { (greatest + 1) % TWO_64 }

  function Numbered(r: MemberWithKey, uid: uint64): MemberWithKey { r.(member := r.member.(id := Some(uid))) }

  /** One request. A dry run leaves LDAP alone but moves the record as usual; LDAP refuses an
      entry that exists. */
  function CreateOne(noop: bool, s: State, r: MemberWithKey, f: Faults): State {
    if r.member.username.None? then s.(store := Promoted(s.store, r, f.move))
    else
      var uid := NextUid(s.greatest);
      if noop then State(uid, s.accounts, Promoted(s.store, Numbered(r, uid), f.move))
      else if f.add || DnOf(r) in s.accounts then s.(greatest := uid)
      else State(uid, s.accounts[DnOf(r) := [Format(uid)]], Promoted(s.store, Numbered(r, uid), f.move))
  }

  function CreateAll(noop: bool, s: State, rs: seq<MemberWithKey>, faults: nat -> Faults): State {
    if rs == [] then s
    else CreateOne(noop, CreateAll(noop, s, rs[..|rs| - 1], faults), rs[|rs| - 1], faults(|rs| - 1))
  }

  predicate Adds(noop: bool, s: State, r: MemberWithKey, f: Faults) {
    !noop && r.member.username.Some? && !f.add && DnOf(r) !in s.accounts
  }

  /** The groups after the creation loop. The name is joined as it is, not as the account is named. */
  function JoinAll(noop: bool, s: State, rs: seq<MemberWithKey>, faults: nat -> Faults, g: Groups, m: Memberships)
    : Memberships
  {
    if rs == [] then m
    else
      var n := |rs| - 1;
      var before := JoinAll(noop, s, rs[..n], faults, g, m);
      if Adds(noop, CreateAll(noop, s, rs[..n], faults), rs[n], faults(n))
      then Join(before, g.newUser, rs[n].member.GetUsername(), faults(n).groups)
      else before
  }

  /** The creation loop, on the database it is given. */
  method CreateAccounts(noop: bool, greatest0: uint64, accounts0: Directory, memberships0: Memberships,
                        requests: seq<MemberWithKey>, faults: nat -> Faults, g: Groups, db: CassandraDB)
    returns (greatest: uint64, accounts: Directory, memberships: Memberships)
    modifies db
    ensures State(greatest, accounts, db.Contents())
            == CreateAll(noop, State(greatest0, accounts0, old(db.Contents())), requests, faults)
    ensures memberships
            == JoinAll(noop, State(greatest0, accounts0, old(db.Contents())), requests, faults, g, memberships0)
  {
    greatest, accounts, memberships := greatest0, accounts0, memberships0;
    var i := 0;
    ghost var start := State(greatest0, accounts0, db.Contents());
    while i < |requests|
      invariant 0 <= i <= |requests|
      invariant State(greatest, accounts, db.Contents()) == CreateAll(noop, start, requests[..i], faults)
      invariant memberships == JoinAll(noop, start, requests[..i], faults, g, memberships0)
    {
      assert requests[..i + 1][..i] == requests[..i];
      var request := requests[i];
      var f := faults(i);
      i := i + 1;
      if request.member.username.Some? {
        greatest := NextUid(greatest);
        var name := FilterAscii(request.member.username.value);
        request := Numbered(request, greatest);
        if !noop {
          if f.add || NewUserDn(name) in accounts { continue; }
          accounts := accounts[NewUserDn(name) := [Format(greatest)]];
          memberships := JoinEach(memberships, g.newUser, request.member.username.value, f.groups);
        }
      }
      var _ := db.MoveNewMemberToFullMember(request, if f.move then WriteFails else NoFault);
    }
    assert requests[..|requests|] == requests;
  }

  // ---- uids ------------------------------------------------------------------------------------

  /** The uids a run hands out, in order, to requests with a user name. */
  function Assigned(noop: bool, s: State, rs: seq<MemberWithKey>, faults: nat -> Faults): seq<uint64> {
    if rs == [] then []
    else
      var n := |rs| - 1;
      Assigned(noop, s, rs[..n], faults) +
      if rs[n].member.username.Some? then [NextUid(CreateAll(noop, s, rs[..n], faults).greatest)] else []
  }

  /** They count up from the greatest one found, failed additions included, as long as 64 bits last. */
  lemma {:induction false} UidsCountUp(noop: bool, s: State, rs: seq<MemberWithKey>, faults: nat -> Faults)
    requires s.greatest + |rs| < TWO_64
    ensures |Assigned(noop, s, rs, faults)| <= |rs|
    ensures CreateAll(noop, s, rs, faults).greatest == s.greatest + |Assigned(noop, s, rs, faults)|
    ensures forall i :: 0 <= i < |Assigned(noop, s, rs, faults)| ==>
              Assigned(noop, s, rs, faults)[i] == s.greatest + 1 + i
  {
    if rs == [] {
    } else {
      UidsCountUp(noop, s, rs[..|rs| - 1], faults);
    }
  }

  /** At the end of 64 bits the counter starts again at 0. */
  lemma UidWraps(greatest: uint64)
    ensures NextUid(greatest) > greatest <==> greatest < TWO_64 - 1
    ensures greatest == TWO_64 - 1 ==> NextUid(greatest) == 0
  {
  }

  lemma NewUidIsNew(s: State, r: MemberWithKey, uid: uint64)
    requires Above(s.accounts, s.greatest) && uid > s.greatest && DnOf(r) !in s.accounts
    ensures Above(s.accounts[DnOf(r) := [Format(uid)]], uid)
    ensures UniqueUids(s.accounts) ==> UniqueUids(s.accounts[DnOf(r) := [Format(uid)]])
  {
    ParseUintUndoesFormat(uid);
  }

  /** A run never gives out a uidNumber that some entry already has: uniqueness in the directory
      is preserved, entries that do not parse included. */
  lemma {:induction false} UidsStayUnique(s: State, rs: seq<MemberWithKey>, faults: nat -> Faults)
    requires Above(s.accounts, s.greatest) && s.greatest + |rs| < TWO_64
    ensures var t := CreateAll(false, s, rs, faults);
            && Above(t.accounts, t.greatest)
            && (UniqueUids(s.accounts) ==> UniqueUids(t.accounts))
            && (forall dn :: dn in s.accounts ==> dn in t.accounts && t.accounts[dn] == s.accounts[dn])
  {
    if rs == [] {
    } else {
      var n := |rs| - 1;
      var u := CreateAll(false, s, rs[..n], faults);
      UidsStayUnique(s, rs[..n], faults);
      UidsCountUp(false, s, rs[..n], faults);
      OneUidIsNew(u, rs[n], faults(n));
    }
  }

  lemma OneUidIsNew(u: State, r: MemberWithKey, f: Faults)
    requires Above(u.accounts, u.greatest) && u.greatest + 1 < TWO_64
    ensures var t := CreateOne(false, u, r, f);
            && Above(t.accounts, t.greatest)
            && (UniqueUids(u.accounts) ==> UniqueUids(t.accounts))
            && (forall dn :: dn in u.accounts ==> dn in t.accounts && t.accounts[dn] == u.accounts[dn])
  {
    if r.member.username.Some? && DnOf(r) !in u.accounts { NewUidIsNew(u, r, NextUid(u.greatest)); }
  }

  // ---- directory and store agree -----------------------------------------------------------------

  /** A member record with a user name has the account of that name, with the record's id. */
  predicate HasAccount(d: Directory, row: Row) {
    row.pbData.MemberBlob? && row.pbData.member.username.Some? ==>
      var dn := NewUserDn(AsciiFilter(row.pbData.member.username.value));
      row.pbData.member.id.Some? && dn in d && d[dn] == [Format(row.pbData.member.id.value)]
  }

  /** What promoting one record changes among the member rows. */
  lemma PromotedRows(s: Store, r: MemberWithKey, fails: bool, l: Loc)
    requires l in Promoted(s, r, fails).rows && l.table == Members
    ensures (l in s.rows && Promoted(s, r, fails).rows[l] == s.rows[l])
            || Promoted(s, r, fails).rows[l].pbData == MemberBlob(r.member)
  {
  }

  /** After any run, dry runs apart, with any failures: a member row is either as it was
      before or has its account. */
  lemma {:induction false} PromotedHaveAccounts(s: State, rs: seq<MemberWithKey>, faults: nat -> Faults, l: Loc)
    requires l in CreateAll(false, s, rs, faults).store.rows && l.table == Members
    ensures var t := CreateAll(false, s, rs, faults);
            (l in s.store.rows && t.store.rows[l] == s.store.rows[l]) || HasAccount(t.accounts, t.store.rows[l])
  {
    if rs == [] {
    } else {
      var n := |rs| - 1;
      var u, r := CreateAll(false, s, rs[..n], faults), rs[n];
      var uid := NextUid(u.greatest);
      if r.member.username.None? {
        PromotedRows(u.store, r, faults(n).move, l);
      } else if !(faults(n).add || DnOf(r) in u.accounts) {
        PromotedRows(u.store, Numbered(r, uid), faults(n).move, l);
      }
      if l in u.store.rows { PromotedHaveAccounts(s, rs[..n], faults, l); }
    }
  }

  // ---- who stays queued ------------------------------------------------------------------------

  ghost predicate FromQueue(s: Store, rs: seq<MemberWithKey>) {
    && (forall i :: 0 <= i < |rs| ==> Loc(Queue, rs[i].key) in s.rows)
    && (forall i, j :: 0 <= i < j < |rs| ==> rs[i].key != rs[j].key)
  }

  /** Request `i` is promoted: an encodable record, a successful move and, unless the run is dry or there
      is no name, a successful addition. */
  predicate IsPromoted(noop: bool, s: State, rs: seq<MemberWithKey>, faults: nat -> Faults, i: nat)
    requires i < |rs|
  {
    Takes(noop, CreateAll(noop, s, rs[..i], faults), rs[i], faults(i))
  }

  predicate Takes(noop: bool, u: State, r: MemberWithKey, f: Faults) {
    r.member.Complete() && !f.move && (noop || r.member.username.None? || Adds(noop, u, r, f))
  }

  lemma PromotionEmptiesOnePlace(s: Store, r: MemberWithKey, fails: bool, l: Loc)
    requires l in s.rows && l.table == Queue
    ensures l in Promoted(s, r, fails).rows <==> !(l == Loc(Queue, r.key) && r.member.Complete() && !fails)
    ensures l in Promoted(s, r, fails).rows ==> Promoted(s, r, fails).rows[l] == s.rows[l]
  {
  }

  /** A request leaves the queue exactly when it is promoted; otherwise its row is still there as it
      was, in particular after every failed account addition. */
  lemma {:induction false} LeavesQueueIffPromoted(noop: bool, s: State, rs: seq<MemberWithKey>, faults: nat -> Faults,
                                                  i: nat)
    requires FromQueue(s.store, rs) && i < |rs|
    ensures var l := Loc(Queue, rs[i].key); var t := CreateAll(noop, s, rs, faults).store;
            && (l in t.rows <==> !IsPromoted(noop, s, rs, faults, i))
            && (l in t.rows ==> t.rows[l] == s.store.rows[l])
  {
    var n := |rs| - 1;
    var l := Loc(Queue, rs[i].key);
    var u, r := CreateAll(noop, s, rs[..n], faults), rs[n];
    if i < n {
      LeavesQueueIffPromoted(noop, s, rs[..n], faults, i);
      PromotedWithout(noop, s, rs, faults, i, n);
      OthersKeepTheirPlace(noop, u, r, faults(n), l);
    } else {
      UntouchedStayQueued(noop, s, rs, faults, n, rs[i].key);
      LeavesIffTaken(noop, u, r, faults(n));
    }
  }

  lemma PromotedWithout(noop: bool, s: State, rs: seq<MemberWithKey>, faults: nat -> Faults, i: nat, n: nat)
    requires i < n <= |rs|
    ensures IsPromoted(noop, s, rs[..n], faults, i) == IsPromoted(noop, s, rs, faults, i)
  {
    assert rs[..n][..i] == rs[..i];
  }

  lemma LeavesIffTaken(noop: bool, u: State, r: MemberWithKey, f: Faults)
    requires Loc(Queue, r.key) in u.store.rows
    ensures var l := Loc(Queue, r.key); var t := CreateOne(noop, u, r, f).store;
            (l in t.rows <==> !Takes(noop, u, r, f)) && (l in t.rows ==> t.rows[l] == u.store.rows[l])
  {
    PromotionEmptiesOnePlace(u.store, r, f.move, Loc(Queue, r.key));
    PromotionEmptiesOnePlace(u.store, Numbered(r, NextUid(u.greatest)), f.move, Loc(Queue, r.key));
  }

  lemma OthersKeepTheirPlace(noop: bool, u: State, r: MemberWithKey, f: Faults, l: Loc)
    requires l.table == Queue && l != Loc(Queue, r.key)
    ensures l in CreateOne(noop, u, r, f).store.rows <==> l in u.store.rows
    ensures l in u.store.rows ==> CreateOne(noop, u, r, f).store.rows[l] == u.store.rows[l]
  {
    if l in u.store.rows {
      PromotionEmptiesOnePlace(u.store, r, f.move, l);
      PromotionEmptiesOnePlace(u.store, Numbered(r, NextUid(u.greatest)), f.move, l);
    }
  }

  lemma {:induction false} UntouchedStayQueued(noop: bool, s: State, rs: seq<MemberWithKey>, faults: nat -> Faults,
                                               n: nat, key: Bytes)
    requires n <= |rs| && Loc(Queue, key) in s.store.rows && forall i :: 0 <= i < n ==> rs[i].key != key
    ensures var t := CreateAll(noop, s, rs[..n], faults).store;
            Loc(Queue, key) in t.rows && t.rows[Loc(Queue, key)] == s.store.rows[Loc(Queue, key)]
  {
    if n == 0 {
    } else {
      UntouchedStayQueued(noop, s, rs, faults, n - 1, key);
      assert rs[..n][..n - 1] == rs[..n - 1];
      OthersKeepTheirPlace(noop, CreateAll(noop, s, rs[..n - 1], faults), rs[n - 1], faults(n - 1), Loc(Queue, key));
    }
  }

  /** Creations touch the queue and the members, nothing else. */
  lemma {:induction false} CreationsLeaveOthers(noop: bool, s: State, rs: seq<MemberWithKey>, faults: nat -> Faults,
                                                l: Loc)
    requires l.table != Queue && l.table != Members
    ensures var t := CreateAll(noop, s, rs, faults).store;
            (l in t.rows <==> l in s.store.rows) && (l in t.rows ==> t.rows[l] == s.store.rows[l])
  {
    if rs == [] {
    } else {
      CreationsLeaveOthers(noop, s, rs[..|rs| - 1], faults, l);
    }
  }

  lemma {:induction false} AccountsOnlyGrow(noop: bool, s: State, rs: seq<MemberWithKey>, faults: nat -> Faults, dn: Dn)
    requires dn in s.accounts
    ensures dn in CreateAll(noop, s, rs, faults).accounts
    ensures CreateAll(noop, s, rs, faults).accounts[dn] == s.accounts[dn]
  {
    if rs == [] {
    } else {
      AccountsOnlyGrow(noop, s, rs[..|rs| - 1], faults, dn);
    }
  }

  lemma {:induction false} AddedAccountStays(s: State, rs: seq<MemberWithKey>, faults: nat -> Faults, i: nat)
    requires i < |rs| && rs[i].member.username.Some? && !faults(i).add
    ensures DnOf(rs[i]) in CreateAll(false, s, rs, faults).accounts
    decreases |rs|
  {
    var n := |rs| - 1;
    if i == n {
    } else {
      AddedAccountStays(s, rs[..n], faults, i);
    }
  }

  // ---- departing members -----------------------------------------------------------------------

  predicate Expected(g: Groups, cn: Bytes) { cn == [] || cn in g.newUser || cn in g.ignored }

  /** The nested loops over the groups that list a user; entries without a name are passed over. */
  method GroupsDiffer(cns: seq<Bytes>, g: Groups) returns (differ: bool)
    ensures differ <==> exists cn :: cn in cns && cn != [] && cn !in g.newUser && cn !in g.ignored
    ensures differ <==> exists cn :: cn in cns && !Expected(g, cn)
  {
    differ := false;
    for n := 0 to |cns|
      invariant differ <==> exists i :: 0 <= i < n && !Expected(g, cns[i])
    {
      var cn := cns[n];
      if cn == [] { continue; }
      var found := false;
      for m := 0 to |g.newUser|
        invariant found <==> cn in g.newUser[..m]
      {
        if cn == g.newUser[m] { found := true; }
      }
      var listed := found;
      assert g.newUser[..|g.newUser|] == g.newUser;
      for m := 0 to |g.ignored|
        invariant found <==> listed || cn in g.ignored[..m]
      {
        if cn == g.ignored[m] { found := true; }
      }
      assert g.ignored[..|g.ignored|] == g.ignored;
      if !found { differ := true; }
    }
  }

  datatype Action = DeleteAccount(dn: Dn) | LeaveGroup(group: Bytes, uid: Bytes) | ArchiveRecord(key: Bytes)

  /** `found` is what the group search returns, if it succeeds. */
  predicate Deletes(noop: bool, found: Option<seq<Bytes>>, g: Groups) {
    !noop && found.Some? && forall cn :: cn in found.value ==> Expected(g, cn)
  }

  function LeaveAll(groups: seq<Bytes>, uid: Bytes): seq<Action> {
    seq(|groups|, i requires 0 <= i < |groups| => LeaveGroup(groups[i], uid))
  }

  /** What is issued for one departing member, in order. The account is deleted exactly when every named
      group listing the user is a new-user or an ignored one; otherwise the user is removed from every
      new-user group instead. Archiving comes last, and after a failed search not at all. */
  method Depart(noop: bool, r: MemberWithKey, found: Option<seq<Bytes>>, g: Groups) returns (log: seq<Action>)
    ensures !noop && found.None? ==> log == []
    ensures noop ==> log == [ArchiveRecord(r.key)]
    ensures !noop && found.Some? ==>
              log == (if forall cn :: cn in found.value ==> cn == [] || cn in g.newUser || cn in g.ignored
                      then [DeleteAccount(DnOf(r))]
                      else LeaveAll(g.newUser, AsciiFilter(r.member.GetUsername()))) + [ArchiveRecord(r.key)]
    ensures DeleteAccount(DnOf(r)) in log <==> Deletes(noop, found, g)
  {
    log := [];
    var name := FilterAscii(r.member.GetUsername());
    if !noop {
      if found.None? { return; }
      var differ := GroupsDiffer(found.value, g);
      if differ {
        for i := 0 to |g.newUser|
          invariant log == LeaveAll(g.newUser, name)[..i]
        {
          log := log + [LeaveGroup(g.newUser[i], name)];
        }
        assert DeleteAccount(DnOf(r)) !in log;
      } else {
        log := log + [DeleteAccount(NewUserDn(name))];
      }
    }
    log := log + [ArchiveRecord(r.key)];
  }

  /** What the group search, the deletion, the removals and the archiving of one departure come to. */
  datatype Departure = Departure(record: MemberWithKey, found: Option<seq<Bytes>>, deleteFails: bool,
                                 groupFails: set<Bytes>, moveFails: bool)

  predicate Removes(noop: bool, d: Departure, g: Groups, dn: Dn) {
    Deletes(noop, d.found, g) && !d.deleteFails && DnOf(d.record) == dn
  }

  function Archived(s: Store, r: MemberWithKey, fails: bool): Store {
    match PrepareArchiving(r)
    case Err(_) => s
    case Ok(b) => if fails then s else Apply(s, b)
  }

  /** A failed group search skips the record; a failed deletion does not. */
  function DepartOne(noop: bool, s: State, d: Departure, g: Groups): State {
    if !noop && d.found.None? then s
    else
      State(s.greatest,
            if Removes(noop, d, g, DnOf(d.record)) then s.accounts - {DnOf(d.record)} else s.accounts,
            Archived(s.store, d.record, d.moveFails))
  }

  function DepartAll(noop: bool, s: State, ds: seq<Departure>, g: Groups): State {
    if ds == [] then s else DepartOne(noop, DepartAll(noop, s, ds[..|ds| - 1], g), ds[|ds| - 1], g)
  }

  /** A removal takes out the name the account has, from one group. */
  predicate Leaves(noop: bool, d: Departure, g: Groups, p: (Bytes, Bytes)) {
    && !noop && d.found.Some? && !Deletes(noop, d.found, g)
    && p.0 in g.newUser && p.0 !in d.groupFails && p.1 == AsciiFilter(d.record.member.GetUsername())
  }

  function LeaveOne(noop: bool, m: Memberships, d: Departure, g: Groups): Memberships {
    set p | p in m && !Leaves(noop, d, g, p)
  }

  function LeaveEach(noop: bool, m: Memberships, ds: seq<Departure>, g: Groups): Memberships {
    if ds == [] then m else LeaveOne(noop, LeaveEach(noop, m, ds[..|ds| - 1], g), ds[|ds| - 1], g)
  }

  /** The removals of a log, carried out. */
  method LeaveLogged(m0: Memberships, log: seq<Action>, failing: set<Bytes>) returns (m: Memberships)
    ensures m == set p | p in m0 && !(p.0 !in failing && LeaveGroup(p.0, p.1) in log)
  {
    m := m0;
    for k := 0 to |log|
      invariant m == set p | p in m0 && !(p.0 !in failing && LeaveGroup(p.0, p.1) in log[..k])
    {
      assert forall a :: a in log[..k + 1] <==> a in log[..k] || a == log[k];
      if log[k].LeaveGroup? && log[k].group !in failing { m := m - {(log[k].group, log[k].uid)}; }
    }
    assert log[..|log|] == log;
  }

  lemma LoggedLeaves(noop: bool, d: Departure, g: Groups, log: seq<Action>, p: (Bytes, Bytes))
    requires !noop && d.found.None? ==> log == []
    requires noop ==> log == [ArchiveRecord(d.record.key)]
    requires !noop && d.found.Some? ==>
               log == (if Deletes(noop, d.found, g) then [DeleteAccount(DnOf(d.record))]
                       else LeaveAll(g.newUser, AsciiFilter(d.record.member.GetUsername())))
                      + [ArchiveRecord(d.record.key)]
    ensures Leaves(noop, d, g, p) <==> p.0 !in d.groupFails && LeaveGroup(p.0, p.1) in log
  {
    if !noop && d.found.Some? && !Deletes(noop, d.found, g) {
      var name := AsciiFilter(d.record.member.GetUsername());
      var left := LeaveAll(g.newUser, name);
      if p.0 in g.newUser && p.1 == name {
        var k :| 0 <= k < |g.newUser| && g.newUser[k] == p.0;
        assert log[k] == left[k] == LeaveGroup(p.0, p.1);
      }
      if LeaveGroup(p.0, p.1) in log {
        var k :| 0 <= k < |log| && log[k] == LeaveGroup(p.0, p.1);
        assert log[k] == left[k];
      }
    }
  }

  /** The departing loop: each record's actions, carried out on directory, groups and database. */
  method RemoveDeparted(noop: bool, ghost greatest: uint64, accounts0: Directory, memberships0: Memberships,
                        ds: seq<Departure>, g: Groups, db: CassandraDB)
    returns (accounts: Directory, memberships: Memberships)
    modifies db
    ensures State(greatest, accounts, db.Contents())
            == DepartAll(noop, State(greatest, accounts0, old(db.Contents())), ds, g)
    ensures memberships == LeaveEach(noop, memberships0, ds, g)
  {
    accounts, memberships := accounts0, memberships0;
    ghost var start := State(greatest, accounts0, db.Contents());
    for i := 0 to |ds|
      invariant State(greatest, accounts, db.Contents()) == DepartAll(noop, start, ds[..i], g)
      invariant memberships == LeaveEach(noop, memberships0, ds[..i], g)
    {
      assert ds[..i + 1][..i] == ds[..i];
      var d := ds[i];
      var log := Depart(noop, d.record, d.found, g);
      forall p: (Bytes, Bytes) { LoggedLeaves(noop, d, g, log, p); }
      memberships := LeaveLogged(memberships, log, d.groupFails);
      if DeleteAccount(DnOf(d.record)) in log && !d.deleteFails { accounts := accounts - {DnOf(d.record)}; }
      if ArchiveRecord(d.record.key) in log {
        var _ := db.MoveDeletedMemberToArchive(d.record, if d.moveFails then WriteFails else NoFault);
      }
    }
    assert ds[..|ds|] == ds;
  }

  // ---- who is in the groups --------------------------------------------------------------------

  predicate Joins(noop: bool, s: State, rs: seq<MemberWithKey>, faults: nat -> Faults, g: Groups, i: nat,
                  p: (Bytes, Bytes))
    requires i < |rs|
  {
    && Adds(noop, CreateAll(noop, s, rs[..i], faults), rs[i], faults(i))
    && p.0 in g.newUser && p.0 !in faults(i).groups && p.1 == rs[i].member.GetUsername()
  }

  /** The creations add exactly the new accounts' names to exactly the new-user groups, failures apart. */
  lemma {:induction false} JoinedIff(noop: bool, s: State, rs: seq<MemberWithKey>, faults: nat -> Faults, g: Groups,
                                     m: Memberships, p: (Bytes, Bytes))
    ensures p in JoinAll(noop, s, rs, faults, g, m) <==>
              p in m || exists i :: 0 <= i < |rs| && Joins(noop, s, rs, faults, g, i, p)
  {
    if rs == [] {
    } else {
      var n := |rs| - 1;
      JoinedIff(noop, s, rs[..n], faults, g, m, p);
      forall i | 0 <= i < n
        ensures Joins(noop, s, rs[..n], faults, g, i, p) <==> Joins(noop, s, rs, faults, g, i, p)
      {
        assert rs[..n][..i] == rs[..i];
      }
      var before := JoinAll(noop, s, rs[..n], faults, g, m);
      assert p in JoinAll(noop, s, rs, faults, g, m) <==> p in before || Joins(noop, s, rs, faults, g, n, p);
      if i :| 0 <= i < |rs| && Joins(noop, s, rs, faults, g, i, p) {
        assert i < n ==> Joins(noop, s, rs[..n], faults, g, i, p);
      }
    }
  }

  /** What takes an entry out of a group: a search that found another group than new-user and ignored ones, and a
      removal, for that group and under the ASCII part of the user name, that did not fail. */
  ghost predicate TakesOut(noop: bool, d: Departure, g: Groups, p: (Bytes, Bytes)) {
    && !noop && d.found.Some?
    && (exists cn :: cn in d.found.value && cn != [] && cn !in g.newUser && cn !in g.ignored)
    && p.0 in g.newUser && p.0 !in d.groupFails && p.1 == AsciiFilter(d.record.member.GetUsername())
  }

  lemma {:induction false} LeftIff(noop: bool, m: Memberships, ds: seq<Departure>, g: Groups, p: (Bytes, Bytes))
    ensures p in LeaveEach(noop, m, ds, g) <==> p in m && forall i :: 0 <= i < |ds| ==> !Leaves(noop, ds[i], g, p)
    ensures forall i :: 0 <= i < |ds| ==> (Leaves(noop, ds[i], g, p) <==> TakesOut(noop, ds[i], g, p))
  {
    if ds == [] {
    } else {
      var n := |ds| - 1;
      LeftIff(noop, m, ds[..n], g, p);
      assert forall i :: 0 <= i < n ==> ds[..n][i] == ds[i];
    }
  }

  /** The removals name the account, the additions the user: of those a departing member was added to, the
      member is taken out of every new-user group exactly when the user name is ASCII. */
  lemma NameIsRemovedIffAscii(d: Departure, g: Groups, m: Memberships, group: Bytes)
    requires d.found.Some? && !Deletes(false, d.found, g) && group in g.newUser && group !in d.groupFails
    requires (group, d.record.member.GetUsername()) in m
    ensures (group, d.record.member.GetUsername()) !in LeaveOne(false, m, d, g)
            <==> forall b :: b in d.record.member.GetUsername() ==> b < 128
  {
    FilteredIsAscii(d.record.member.GetUsername());
  }

  /** And where the account is deleted the groups are left as they are, the member still listed. */
  lemma DeletionLeavesGroups(noop: bool, d: Departure, g: Groups, m: Memberships)
    requires Deletes(noop, d.found, g)
    ensures LeaveOne(noop, m, d, g) == m
  {
  }

  // ---- the whole batch -------------------------------------------------------------------------

  lemma {:induction false} SurvivesIffNotRemoved(noop: bool, s: State, ds: seq<Departure>, g: Groups, dn: Dn)
    requires dn in s.accounts
    ensures dn in DepartAll(noop, s, ds, g).accounts <==> forall i :: 0 <= i < |ds| ==> !Removes(noop, ds[i], g, dn)
    ensures dn in DepartAll(noop, s, ds, g).accounts ==> DepartAll(noop, s, ds, g).accounts[dn] == s.accounts[dn]
  {
    if ds == [] {
    } else {
      var n := |ds| - 1;
      SurvivesIffNotRemoved(noop, s, ds[..n], g, dn);
      if Removes(noop, ds[n], g, dn) {
      } else if i :| 0 <= i < n && Removes(noop, ds[i], g, dn) {
        assert ds[..n][i] == ds[i];
      }
    }
  }

  /** Departures add no account and touch no row outside the departing queue and the archive. */
  lemma {:induction false} DeparturesOnlyRemove(noop: bool, s: State, ds: seq<Departure>, g: Groups, l: Loc, dn: Dn)
    requires l.table != Dequeue && l.table != Archive
    ensures var t := DepartAll(noop, s, ds, g);
            && (l in t.store.rows <==> l in s.store.rows)
            && (l in s.store.rows ==> t.store.rows[l] == s.store.rows[l])
            && (dn in t.accounts ==> dn in s.accounts && t.accounts[dn] == s.accounts[dn])
  {
    if ds == [] {
    } else {
      DeparturesOnlyRemove(noop, s, ds[..|ds| - 1], g, l, dn);
    }
  }

  /** A whole run: a member promoted in it, under a user name, ends with their account exactly when no
      departing record of the same filtered name had its account deleted in the second half. */
  lemma WholeRunKeepsAccountIff(s: State, rs: seq<MemberWithKey>, faults: nat -> Faults, ds: seq<Departure>, g: Groups,
                                l: Loc)
    requires var t := DepartAll(false, CreateAll(false, s, rs, faults), ds, g);
             && l in t.store.rows && l.table == Members && !(l in s.store.rows && t.store.rows[l] == s.store.rows[l])
             && t.store.rows[l].pbData.MemberBlob? && t.store.rows[l].pbData.member.username.Some?
    ensures var t := DepartAll(false, CreateAll(false, s, rs, faults), ds, g);
            HasAccount(t.accounts, t.store.rows[l]) <==>
              forall i :: 0 <= i < |ds| ==>
                !Removes(false, ds[i], g, NewUserDn(AsciiFilter(t.store.rows[l].pbData.member.username.value)))
  {
    var u := CreateAll(false, s, rs, faults);
    var dn := NewUserDn(AsciiFilter(DepartAll(false, u, ds, g).store.rows[l].pbData.member.username.value));
    DeparturesOnlyRemove(false, u, ds, g, l, dn);
    PromotedHaveAccounts(s, rs, faults, l);
    SurvivesIffNotRemoved(false, u, ds, g, dn);
  }

  /** And uidNumber stays unique in the directory over the whole run. */
  lemma WholeRunKeepsUidsUnique(s: State, rs: seq<MemberWithKey>, faults: nat -> Faults, ds: seq<Departure>, g: Groups)
    requires Above(s.accounts, s.greatest) && s.greatest + |rs| < TWO_64 && UniqueUids(s.accounts)
    ensures UniqueUids(DepartAll(false, CreateAll(false, s, rs, faults), ds, g).accounts)
  {
    var u := CreateAll(false, s, rs, faults);
    var t := DepartAll(false, u, ds, g);
    UidsStayUnique(s, rs, faults);
    forall dn | dn in t.accounts ensures dn in u.accounts && t.accounts[dn] == u.accounts[dn] {
      DeparturesOnlyRemove(false, u, ds, g, Loc(Members, []), dn);
    }
  }

  // ---- run after run -----------------------------------------------------------------------------

  /** One run, from whatever it finds: in between, anything may happen to directory and database. */
  datatype Night = Night(start: State, requests: seq<MemberWithKey>, faults: nat -> Faults,
                         departures: seq<Departure>, groups: Groups)

  function EndOf(n: Night): State {
    DepartAll(false, CreateAll(false, n.start, n.requests, n.faults), n.departures, n.groups)
  }

  /** No departure deletes the account, and between runs nobody else does. */
  ghost predicate AccountIsLeftAlone(nights: seq<Night>, dn: Dn) {
    && (forall n, i :: 0 <= n < |nights| && 0 <= i < |nights[n].departures| ==>
          !Removes(false, nights[n].departures[i], nights[n].groups, dn))
    && (forall n :: 0 < n < |nights| && dn in EndOf(nights[n - 1]).accounts ==> dn in nights[n].start.accounts)
  }

  lemma {:induction false} AccountLasts(nights: seq<Night>, k: nat, dn: Dn)
    requires 0 < k < |nights| && AccountIsLeftAlone(nights, dn)
    requires dn in CreateAll(false, nights[0].start, nights[0].requests, nights[0].faults).accounts
    ensures dn in nights[k].start.accounts
  {
    var last := nights[k - 1];
    if k == 1 {
    } else {
      AccountLasts(nights, k - 1, dn);
      AccountsOnlyGrow(false, last.start, last.requests, last.faults, dn);
    }
    SurvivesIffNotRemoved(false, CreateAll(false, last.start, last.requests, last.faults), last.departures,
                          last.groups, dn);
    assert dn in EndOf(nights[k - 1]).accounts;
  }

  /** A request whose account was added but whose move failed is stuck: as long as nobody removes the
      account, no later run takes a request of that name out of the queue. */
  lemma FailedMoveStrandsRequest(nights: seq<Night>, i: nat, k: nat, j: nat)
    requires 0 < k < |nights| && i < |nights[0].requests| && j < |nights[k].requests|
    requires nights[0].requests[i].member.username.Some? && !nights[0].faults(i).add
    requires AccountIsLeftAlone(nights, DnOf(nights[0].requests[i]))
    requires FromQueue(nights[k].start.store, nights[k].requests)
    requires nights[k].requests[j].member.username.Some?
    requires DnOf(nights[k].requests[j]) == DnOf(nights[0].requests[i])
    ensures var l := Loc(Queue, nights[k].requests[j].key);
            && l in EndOf(nights[k]).store.rows
            && EndOf(nights[k]).store.rows[l] == nights[k].start.store.rows[l]
  {
    var n, r := nights[k], nights[k].requests[j];
    AddedAccountStays(nights[0].start, nights[0].requests, nights[0].faults, i);
    AccountLasts(nights, k, DnOf(r));
    AccountsOnlyGrow(false, n.start, n.requests[..j], n.faults, DnOf(r));
    LeavesQueueIffPromoted(false, n.start, n.requests, n.faults, j);
    DeparturesOnlyRemove(false, CreateAll(false, n.start, n.requests, n.faults), n.departures, n.groups,
                         Loc(Queue, r.key), DnOf(r));
  }

  // ---- who is archived ---------------------------------------------------------------------------

  ghost predicate FromDequeue(s: Store, ds: seq<Departure>) {
    && (forall i :: 0 <= i < |ds| ==> Loc(Dequeue, ds[i].record.key) in s.rows)
    && (forall i, j :: 0 <= i < j < |ds| ==> ds[i].record.key != ds[j].record.key)
  }

  /** The search was made or not needed, the record can be encoded, and the move succeeds. */
  predicate IsArchived(noop: bool, d: Departure) {
    (noop || d.found.Some?) && d.record.member.Complete() && !d.moveFails
  }

  lemma {:induction false} UntouchedKeepDeparting(noop: bool, s: State, ds: seq<Departure>, g: Groups, l: Loc)
    requires l.table in {Dequeue, Archive} && forall i :: 0 <= i < |ds| ==> ds[i].record.key != l.id
    ensures var t := DepartAll(noop, s, ds, g).store;
            (l in t.rows <==> l in s.store.rows) && (l in t.rows ==> t.rows[l] == s.store.rows[l])
  {
    if ds == [] {
    } else {
      UntouchedKeepDeparting(noop, s, ds[..|ds| - 1], g, l);
    }
  }

  /** A departing record leaves its queue exactly when it is archived, and is then in the archive. */
  lemma {:induction false} LeavesDequeueIffArchived(noop: bool, s: State, ds: seq<Departure>, g: Groups, i: nat)
    requires FromDequeue(s.store, ds) && i < |ds|
    ensures var key := ds[i].record.key; var t := DepartAll(noop, s, ds, g).store;
            && (Loc(Dequeue, key) in t.rows <==> !IsArchived(noop, ds[i]))
            && (Loc(Dequeue, key) in t.rows ==> t.rows[Loc(Dequeue, key)] == s.store.rows[Loc(Dequeue, key)])
            && (IsArchived(noop, ds[i]) ==>
                  Loc(Archive, key) in t.rows && t.rows[Loc(Archive, key)].pbData == MemberBlob(ds[i].record.member))
  {
    var n := |ds| - 1;
    if i == n {
      UntouchedKeepDeparting(noop, s, ds[..n], g, Loc(Dequeue, ds[i].record.key));
    } else {
      LeavesDequeueIffArchived(noop, s, ds[..n], g, i);
    }
  }

  // ---- dry runs ----------------------------------------------------------------------------------

  /** A dry run never touches the directory. */
  lemma {:induction false} DryRunLeavesDirectory(s: State, rs: seq<MemberWithKey>, faults: nat -> Faults,
                                                 ds: seq<Departure>, g: Groups)
    ensures DepartAll(true, CreateAll(true, s, rs, faults), ds, g).accounts == s.accounts
    decreases |rs| + |ds|
  {
    if ds != [] {
      DryRunLeavesDirectory(s, rs, faults, ds[..|ds| - 1], g);
    } else if rs != [] {
      DryRunLeavesDirectory(s, rs[..|rs| - 1], faults, ds, g);
    } else {
    }
  }

  /** But it moves every record all the same, unless the record cannot be encoded or the database fails. */
  lemma DryRunMovesIff(s: State, rs: seq<MemberWithKey>, faults: nat -> Faults, ds: seq<Departure>, g: Groups)
    requires FromQueue(s.store, rs) && FromDequeue(s.store, ds)
    ensures var rows := DepartAll(true, CreateAll(true, s, rs, faults), ds, g).store.rows;
            && (forall i: nat :: i < |rs| ==>
                  (Loc(Queue, rs[i].key) in rows <==> !(rs[i].member.Complete() && !faults(i).move)))
            && (forall i: nat :: i < |ds| ==>
                  (Loc(Dequeue, ds[i].record.key) in rows <==>
                     !(ds[i].record.member.Complete() && !ds[i].moveFails)))
  {
    var u := CreateAll(true, s, rs, faults);
    var rows := DepartAll(true, u, ds, g).store.rows;
    forall i: nat | i < |rs|
      ensures Loc(Queue, rs[i].key) in rows <==> !(rs[i].member.Complete() && !faults(i).move)
    {
      LeavesQueueIffPromoted(true, s, rs, faults, i);
      DeparturesOnlyRemove(true, u, ds, g, Loc(Queue, rs[i].key), DnOf(rs[i]));
    }
    forall i: nat | i < |ds|
      ensures Loc(Dequeue, ds[i].record.key) in rows <==> !(ds[i].record.member.Complete() && !ds[i].moveFails)
    {
      forall k | 0 <= k < |ds| { CreationsLeaveOthers(true, s, rs, faults, Loc(Dequeue, ds[k].record.key)); }
      LeavesDequeueIffArchived(true, u, ds, g, i);
    }
  }

  /** Uid scan, creations, departures. A dry run does not look at LDAP and numbers from 1001. */
  method RunBatch(noop: bool, entries: seq<seq<string>>, accounts0: Directory, memberships0: Memberships,
                  requests: seq<MemberWithKey>, faults: nat -> Faults, ds: seq<Departure>, g: Groups, db: CassandraDB)
    returns (scanned: uint64, greatest: uint64, accounts: Directory, memberships: Memberships)
    requires forall dn :: dn in accounts0 ==> accounts0[dn] in entries
    modifies db
    ensures scanned >= 1000 && (noop ==> scanned == 1000) && (!noop ==> Above(accounts0, scanned))
    ensures State(greatest, accounts, db.Contents())
            == DepartAll(noop, CreateAll(noop, State(scanned, accounts0, old(db.Contents())), requests, faults), ds, g)
    ensures memberships
            == LeaveEach(noop, JoinAll(noop, State(scanned, accounts0, old(db.Contents())), requests, faults, g,
                                       memberships0), ds, g)
    ensures noop ==> accounts == accounts0
    ensures !noop && UniqueUids(accounts0) && scanned + |requests| < TWO_64 ==> UniqueUids(accounts)
  {
    scanned := 1000;
    if !noop { scanned := GreatestUid(entries, accounts0); }
    greatest, accounts, memberships := CreateAccounts(noop, scanned, accounts0, memberships0, requests, faults, g, db);
    accounts, memberships := RemoveDeparted(noop, greatest, accounts, memberships, ds, g, db);
    ghost var start := State(scanned, accounts0, old(db.Contents()));
    if noop {
      DryRunLeavesDirectory(start, requests, faults, ds, g);
    } else if UniqueUids(accounts0) && scanned + |requests| < TWO_64 {
      WholeRunKeepsUidsUnique(start, requests, faults, ds, g);
    }
  }
}
