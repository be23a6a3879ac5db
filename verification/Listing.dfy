/** What the enumerations show of the states the store can reach. */
module Listing {
  import opened ByteStrings
  import opened Records
  import opened Store
  import opened Interleaving
  import opened Edits
  import opened Sequential
  import opened Scans
  import opened Paging

  /** A table's rows as a scan of blobs meets them. */
  ghost predicate IsBlobTable(s: Store, t: Table, prefix: Bytes, table: seq<BlobRow>) {
    && Sorted(table)
    && (forall i :: 0 <= i < |table| ==>
          && prefix <= table[i].key && Loc(t, table[i].key[|prefix|..]) in s.rows
          && table[i].value == s.rows[Loc(t, table[i].key[|prefix|..])].pbData)
    && (forall id :: Loc(t, id) in s.rows ==> Entry(prefix + id, s.rows[Loc(t, id)].pbData) in table)
  }

  /** The members table as a scan of columns meets it. */
  ghost predicate IsMemberTable(s: Store, table: seq<MemberRow>) {
    forall i :: 0 <= i < |table| ==>
      && MEMBER_PREFIX <= table[i].key && Loc(Members, table[i].key[|MEMBER_PREFIX|..]) in s.rows
      && table[i].value == s.rows[Loc(Members, table[i].key[|MEMBER_PREFIX|..])].columns
  }

  lemma ApplicationDecodes(parse: Parser, w: World, row: BlobRow)
    requires Guarded(w) && SizedKeys(w) && APPLICATION_PREFIX <= row.key
    requires var loc := Loc(Application, row.key[|APPLICATION_PREFIX|..]);
             loc in w.store.rows && row.value == w.store.rows[loc].pbData
    ensures Decode(parse, APPLICATION_PREFIX, row).Good?
  {
    var loc := Loc(Application, row.key[|APPLICATION_PREFIX|..]);
    assert RowGuarded(w.store, loc) && SizedKey(loc);
  }

  lemma ReachableApplicantsAreWellFormed(parse: Parser, steps: seq<Step>, table: seq<BlobRow>)
    requires forall i :: 0 <= i < |steps| ==> Sized(steps[i])
    requires IsBlobTable(Run(parse, steps).store, Application, APPLICATION_PREFIX, table)
    ensures WellFormed(parse, table)
  {
    ReachableGuard(parse, steps);
    ReachableKeys(parse, steps);
    forall i | 0 <= i < |table| ensures Decode(parse, APPLICATION_PREFIX, table[i]).Good? {
      ApplicationDecodes(parse, Run(parse, steps), table[i]);
    }
  }

  /** In every reachable state, page after page lists every application, and in strictly
      increasing uuid order, so none twice. */
  lemma EveryApplicantIsListed(parse: Parser, lower: Bytes -> Bytes, steps: seq<Step>, table: seq<BlobRow>, num: int)
    requires (forall i :: 0 <= i < |steps| ==> Sized(steps[i])) && num > 0
    requires IsBlobTable(Run(parse, steps).store, Application, APPLICATION_PREFIX, table)
    ensures WellFormed(parse, table)
    ensures var items := AllPages(parse, lower, table, FromStart, num);
            && (forall id :: Loc(Application, id) in Run(parse, steps).store.rows ==>
                  exists i :: 0 <= i < |items| && items[i].key == id)
            && (forall i, j :: 0 <= i < j < |items| ==> Less(items[i].key, items[j].key))
  {
    ReachableApplicantsAreWellFormed(parse, steps, table);
    PagesAreComplete(parse, lower, table, FromStart, num);
    WholeTable(parse, table);
    var items := AllPages(parse, lower, table, FromStart, num);
    forall id | Loc(Application, id) in Run(parse, steps).store.rows
      ensures exists i :: 0 <= i < |items| && items[i].key == id
    {
      var i := ListedRow(parse, lower, Run(parse, steps).store, table, id);
    }
    ListedInOrder(parse, lower, table);
  }

  lemma ListedRow(parse: Parser, lower: Bytes -> Bytes, s: Store, table: seq<BlobRow>, id: Bytes) returns (i: nat)
    requires WellFormed(parse, table) && IsBlobTable(s, Application, APPLICATION_PREFIX, table)
    requires Loc(Application, id) in s.rows
    ensures i < |Listed(parse, lower, [], table)| && Listed(parse, lower, [], table)[i].key == id
  {
    WellFormedAreListed(parse, lower, table);
    i :| 0 <= i < |table| && table[i] == Entry(APPLICATION_PREFIX + id, s.rows[Loc(Application, id)].pbData);
    SamePrefix(Listed(parse, lower, [], table)[i].key, id);
  }

  lemma ListedInOrder(parse: Parser, lower: Bytes -> Bytes, table: seq<BlobRow>)
    requires Sorted(table) && WellFormed(parse, table)
    ensures var items := Listed(parse, lower, [], table);
            forall i, j :: 0 <= i < j < |items| ==> Less(items[i].key, items[j].key)
  {
    var items := Listed(parse, lower, [], table);
    WellFormedAreListed(parse, lower, table);
    forall i, j | 0 <= i < j < |items| ensures Less(items[i].key, items[j].key) {
      LessUnderPrefix(APPLICATION_PREFIX, items[i].key, items[j].key);
    }
  }

  lemma SamePrefix(a: Bytes, b: Bytes)
    requires APPLICATION_PREFIX + a == APPLICATION_PREFIX + b
    ensures a == b
  {
    assert a == (APPLICATION_PREFIX + a)[10..] && b == (APPLICATION_PREFIX + b)[10..];
  }

  lemma WholeTable(parse: Parser, table: seq<BlobRow>)
    requires Sorted(table) && WellFormed(parse, table)
    ensures Between(table, StartKey(APPLICATION_PREFIX, FromStart), None) == table
  {
    forall i | 0 <= i < |table| ensures Less(APPLICATION_PREFIX, table[i].key) {
      LessOfExtension(APPLICATION_PREFIX, table[i].key[10..]);
      assert table[i].key == APPLICATION_PREFIX + table[i].key[10..];
    }
    AllAfter(table, APPLICATION_PREFIX);
  }

  // ---- the queue, as the account batch reads it ---------------------------------------------------

  const QUEUE_PREFIX: Bytes := [113, 117, 101, 117, 101, 58]  // "queue:"

  lemma QueuePrefixSpells()
    ensures QUEUE_PREFIX == Ascii("queue:")
  {
  }

  /** A listed entry is a stored one: under its key is a row that decodes to it. */
  predicate IsStored(parse: Parser, s: Store, item: QueuedMember) {
    && Loc(Queue, item.key) in s.rows
    && QueuedRecord(parse, s, Queue, item.key)
       == Some(MemberWithKey(item.key, s.rows[Loc(Queue, item.key)].person, item.member))
  }

  /** A row that decodes, under its uuid, to what is stored there. */
  predicate ListsAsStored(parse: Parser, s: Store, row: BlobRow) {
    var d := Decode(parse, QUEUE_PREFIX, row);
    d.Good? && row.key == QUEUE_PREFIX + d.uuid && IsStored(parse, s, QueuedItem(d.uuid, d.agreement))
  }

  lemma QueueEntryDecodes(parse: Parser, w: World, row: BlobRow)
    requires Guarded(w) && SizedKeys(w) && QUEUE_PREFIX <= row.key
    requires var loc := Loc(Queue, row.key[|QUEUE_PREFIX|..]);
             loc in w.store.rows && row.value == w.store.rows[loc].pbData
    ensures ListsAsStored(parse, w.store, row)
  {
    var loc := Loc(Queue, row.key[|QUEUE_PREFIX|..]);
    assert RowGuarded(w.store, loc) && SizedKey(loc);
  }

  /** Such rows are listed row for row, each under its key and as stored. */
  lemma {:induction false} ListedRowForRow(parse: Parser, s: Store, rows: seq<BlobRow>)
    requires forall i :: 0 <= i < |rows| ==> ListsAsStored(parse, s, rows[i])
    ensures var items := QueueListed(parse, QUEUE_PREFIX, rows);
            && |items| == |rows|
            && forall i :: 0 <= i < |rows| ==>
                 rows[i].key == QUEUE_PREFIX + items[i].key && IsStored(parse, s, items[i])
  {
    if rows == [] {
    } else {
      ListedRowForRow(parse, s, rows[..|rows| - 1]);
      assert ListsAsStored(parse, s, rows[|rows| - 1]);
    }
  }

  /** In every reachable state the unlimited queue enumeration is the queue: row for row the
      record that is stored there, no error, no short key. */
  lemma QueueListingIsTheQueue(parse: Parser, steps: seq<Step>, table: seq<BlobRow>)
    requires forall i :: 0 <= i < |steps| ==> Sized(steps[i])
    requires IsBlobTable(Run(parse, steps).store, Queue, QUEUE_PREFIX, table)
    ensures var items := QueueListed(parse, QUEUE_PREFIX, table);
            && |items| == |table|
            && forall i :: 0 <= i < |table| ==>
                 table[i].key == QUEUE_PREFIX + items[i].key && IsStored(parse, Run(parse, steps).store, items[i])
  {
    ReachableGuard(parse, steps);
    ReachableKeys(parse, steps);
    forall i | 0 <= i < |table| ensures ListsAsStored(parse, Run(parse, steps).store, table[i]) {
      QueueEntryDecodes(parse, Run(parse, steps), table[i]);
    }
    ListedRowForRow(parse, Run(parse, steps).store, table);
  }

  lemma WholeQueue(parse: Parser, steps: seq<Step>, table: seq<BlobRow>)
    requires forall i :: 0 <= i < |steps| ==> Sized(steps[i])
    requires IsBlobTable(Run(parse, steps).store, Queue, QUEUE_PREFIX, table)
    ensures SelectQueued(table, QUEUE_PREFIX, FromStart, 0) == table
    ensures !HasShortKey(QUEUE_PREFIX, table)
  {
    ReachableKeys(parse, steps);
    forall i | 0 <= i < |table| ensures Less(QUEUE_PREFIX, table[i].key) {
      assert SizedKey(Loc(Queue, table[i].key[|QUEUE_PREFIX|..]));
      LessOfExtension(QUEUE_PREFIX, table[i].key[6..]);
      assert table[i].key == QUEUE_PREFIX + table[i].key[6..];
    }
    AllAfter(table, QUEUE_PREFIX);
  }

  /** The account batch is handed every queue entry, once, as it is stored. */
  lemma RequestsAreTheQueue(parse: Parser, steps: seq<Step>, table: seq<BlobRow>)
    requires forall i :: 0 <= i < |steps| ==> Sized(steps[i])
    requires IsBlobTable(Run(parse, steps).store, Queue, QUEUE_PREFIX, table)
    ensures !HasShortKey(QUEUE_PREFIX, SelectQueued(table, QUEUE_PREFIX, FromStart, 0))
    ensures var items := QueueListed(parse, QUEUE_PREFIX, SelectQueued(table, QUEUE_PREFIX, FromStart, 0));
            && (forall i, j :: 0 <= i < j < |items| ==> items[i].key != items[j].key)
            && (forall i :: 0 <= i < |items| ==> IsStored(parse, Run(parse, steps).store, items[i]))
            && (forall id :: Loc(Queue, id) in Run(parse, steps).store.rows ==>
                  exists i :: 0 <= i < |items| && items[i].key == id)
  {
    WholeQueue(parse, steps, table);
    QueueListingIsTheQueue(parse, steps, table);
    KeysOfListing(Run(parse, steps).store, table, QueueListed(parse, QUEUE_PREFIX, table));
  }

  lemma KeysOfListing(s: Store, table: seq<BlobRow>, items: seq<QueuedMember>)
    requires IsBlobTable(s, Queue, QUEUE_PREFIX, table) && |items| == |table|
    requires forall i :: 0 <= i < |table| ==> table[i].key == QUEUE_PREFIX + items[i].key
    ensures forall i, j :: 0 <= i < j < |items| ==> items[i].key != items[j].key
    ensures forall id :: Loc(Queue, id) in s.rows ==> exists i :: 0 <= i < |items| && items[i].key == id
  {
    forall i, j | 0 <= i < j < |items| ensures items[i].key != items[j].key { LessIrreflexive(table[i].key); }
    forall id | Loc(Queue, id) in s.rows ensures exists i :: 0 <= i < |items| && items[i].key == id {
      var i :| 0 <= i < |table| && table[i] == Entry(QUEUE_PREFIX + id, s.rows[Loc(Queue, id)].pbData);
      assert items[i].key == table[i].key[6..] == id;
    }
  }

  // ---- the members -----------------------------------------------------------------------------

  /** Members are another matter. The enumeration asks for a non-empty email column, and nothing that
      writes a member row sets that column: in no reachable state is anybody listed. */
  lemma {:induction false} NobodyHasAnEmailColumn(parse: Parser, steps: seq<Step>, table: seq<MemberRow>)
    requires IsMemberTable(Run(parse, steps).store, table)
    ensures WithEmail(table) == []
  {
    if table == [] {
    } else {
      NobodyHasAnEmailColumn(parse, steps, table[1..]);
      ReachableRows(parse, steps, Loc(Members, table[0].key[|MEMBER_PREFIX|..]));
      assert EmailColumn !in SETTABLE;
    }
  }

  lemma NoMemberIsEverListed(parse: Parser, steps: seq<Step>, table: seq<MemberRow>, prev: Bytes, num: int)
    requires IsMemberTable(Run(parse, steps).store, table)
    ensures SelectMembers(table, prev, num) == []
  {
    NobodyHasAnEmailColumn(parse, steps, table);
    FilterThenCut(table, MEMBER_PREFIX + prev);
  }

  // ---- enumeration and detail lookup --------------------------------------------------------------

  /** What the enumeration's column list makes of a member row. */
  function ReadOff(columns: Columns, c: Column): Option<CqlValue> {
    Field(MemberOf(Entry(MEMBER_PREFIX, columns)), c)
  }

  lemma ScannedField(columns: Columns, m: Member, c: Column)
    requires c in columns ==> Field(m, c) == Some(columns[c])
    ensures ReadOff(columns, c) == if c !in SELECTED then None
                                   else if c in columns then Field(m, c) else Some(Zero(c))
  {
    FieldOfRow(Scanned(columns), c);
    if c in columns { FieldsAreTyped(m, c); }
  }

  /** After any sequential run: where a column is set, enumeration and detail lookup give the same field
      exactly when the enumeration selects it. The one settable column it does not select is the zip code,
      which it never shows; a selected column that is null shows as zero. */
  lemma EnumerationAgreesWithDetailIff(parse: Parser, cs: seq<Command>, email: Bytes, c: Column)
    requires AdmissibleCommands(parse, cs) && Loc(Members, email) in RunAll(parse, cs).store.rows
    ensures var s := RunAll(parse, cs).store; var columns := s.rows[Loc(Members, email)].columns;
            && (c in columns ==>
                  && Detail(parse, s, email).Some?
                  && (ReadOff(columns, c) == Field(Detail(parse, s, email).value, c) <==> c in SELECTED)
                  && (c !in SELECTED ==> c == ZipcodeColumn && ReadOff(columns, c) == None))
            && (c !in columns ==> ReadOff(columns, c) == if c in SELECTED then Some(Zero(c)) else None)
  {
    var s := RunAll(parse, cs).store;
    var columns := s.rows[Loc(Members, email)].columns;
    ColumnsAlwaysAgree(parse, cs, email);
    var steps := SequentialRunsAreInterleavings(parse, cs);
    ReachableRows(parse, steps, Loc(Members, email));
    var m := Detail(parse, s, email).GetOr(EMPTY_MEMBER);
    if c in columns { assert BlobField(parse, s.rows[Loc(Members, email)].pbData, c) == Some(columns[c]); }
    ScannedField(columns, m, c);
  }

  /** Setting the zip code of any member therefore makes the two differ. */
  lemma ZipcodeIsNotShown(parse: Parser, s: Store, email: Bytes, zipcode: Bytes)
    requires Detail(parse, s, email).Some?
    ensures var t := PerformEdit(parse, s, email, TextEdit(Some(ZipcodeColumn), zipcode));
            && Detail(parse, t, email).Some? && Detail(parse, t, email).value.zipcode == Some(zipcode)
            && MemberOf(Entry(MEMBER_PREFIX + email, t.rows[Loc(Members, email)].columns)).zipcode == None
  {
    assert Unmarshal(parse, s.rows[Loc(Members, email)].pbData).value.memberData.value.Complete();
  }
}
