/** Range scans over a table in key order, and the two copies of each scan loop:
    the one that collects a list and the one that streams records and errors. */
module Scans {
  import opened ByteStrings
  import opened Records

  datatype Entry<T> = Entry(key: Bytes, value: T)

  /** A table as a scan meets it: in key order, one row a key. */
  ghost predicate Sorted<T>(rows: seq<Entry<T>>) {
    forall i, j :: 0 <= i < j < |rows| ==> Less(rows[i].key, rows[j].key)
  }

  function Between<T>(rows: seq<Entry<T>>, lo: Bytes, hi: Option<Bytes>): seq<Entry<T>> {
    if rows == [] then []
    else if Less(lo, rows[0].key) && (hi.Some? ==> Less(rows[0].key, hi.value))
    then [rows[0]] + Between(rows[1..], lo, hi)
    else Between(rows[1..], lo, hi)
  }

  /** LIMIT, absent unless positive. */
  function Limit<T>(rows: seq<T>, num: int): seq<T> {
    if 0 < num < |rows| then rows[..num] else rows
  }

  lemma {:induction false} BetweenContains<T>(rows: seq<Entry<T>>, lo: Bytes, hi: Option<Bytes>, r: Entry<T>)
    ensures r in Between(rows, lo, hi) <==> r in rows && Less(lo, r.key) && (hi.Some? ==> Less(r.key, hi.value))
  {
    if rows == [] {
    } else {
      BetweenContains(rows[1..], lo, hi, r);
      assert r in rows <==> r == rows[0] || r in rows[1..];
    }
  }

  /** And they are in the order they were in. */
  lemma {:induction false} BetweenSorted<T>(rows: seq<Entry<T>>, lo: Bytes, hi: Option<Bytes>)
    requires Sorted(rows)
    ensures Sorted(Between(rows, lo, hi))
  {
    if rows == [] {
    } else {
      var rest := Between(rows[1..], lo, hi);
      BetweenSorted(rows[1..], lo, hi);
      forall i | 0 <= i < |rest| ensures Less(rows[0].key, rest[i].key) {
        BetweenContains(rows[1..], lo, hi, rest[i]);
        var j :| 0 <= j < |rows[1..]| && rows[1..][j] == rest[i];
        assert rows[1 + j] == rest[i];
      }
    }
  }

  /** Where a scan without upper bound starts, and what its limit leaves of it: the first `num` rows whose key comes
      after the prefix followed by the cursor's uuid, or all of them. */
  lemma AfterCursor<T>(table: seq<Entry<T>>, prefix: Bytes, prev: Cursor, num: int) returns (n: nat)
    requires Sorted(table)
    ensures n <= |table|
    ensures forall i :: 0 <= i < |table| ==>
              (n <= i <==> Less(if prev.After? then prefix + prev.uuid else prefix, table[i].key))
    ensures Limit(Between(table, StartKey(prefix, prev), None), num)
            == if 0 < num < |table| - n then table[n..n + num] else table[n..]
  {
    var start := StartKey(prefix, prev);
    n := BetweenIsSuffix(table, start);
    forall i | 0 <= i < |table| ensures n <= i <==> Less(start, table[i].key) {
      BetweenContains(table, start, None, table[i]);
      SuffixHolds(table, n, i);
    }
  }

  lemma SuffixHolds<T>(table: seq<Entry<T>>, n: nat, i: nat)
    requires Sorted(table) && n <= |table| && i < |table|
    ensures table[i] in table[n..] <==> n <= i
  {
    if n <= i { assert table[n..][i - n] == table[i]; }
    if table[i] in table[n..] {
      var j :| 0 <= j < |table[n..]| && table[n..][j] == table[i];
      LessIrreflexive(table[i].key);
      assert table[n + j] == table[i];
    }
  }

  /** In a sorted table, what comes after a row's key is what follows the row. */
  lemma {:induction false} AfterRow<T>(rows: seq<Entry<T>>, i: nat)
    requires Sorted(rows) && i < |rows|
    ensures Between(rows, rows[i].key, None) == rows[i + 1..]
  {
    if i == 0 {
      LessIrreflexive(rows[0].key);
      AllAfter(rows[1..], rows[0].key);
    } else {
      LessAsymmetric(rows[0].key, rows[i].key);
      AfterRow(rows[1..], i - 1);
      assert rows[1..][i - 1 + 1..] == rows[i + 1..];
    }
  }

  lemma {:induction false} AllAfter<T>(rows: seq<Entry<T>>, lo: Bytes)
    requires forall i :: 0 <= i < |rows| ==> Less(lo, rows[i].key)
    ensures Between(rows, lo, None) == rows
  {
    if rows == [] {
    } else {
      AllAfter(rows[1..], lo);
      assert rows == [rows[0]] + rows[1..];
    }
  }

  lemma {:induction false} BetweenIsSuffix<T>(rows: seq<Entry<T>>, lo: Bytes) returns (n: nat)
    requires Sorted(rows)
    ensures n <= |rows| && Between(rows, lo, None) == rows[n..]
  {
    if rows == [] {
      n := 0;
    } else if Less(lo, rows[0].key) {
      forall i | 0 <= i < |rows| ensures Less(lo, rows[i].key) {
        if i > 0 { LessTransitive(lo, rows[0].key, rows[i].key); }
      }
      AllAfter(rows, lo);
      n := 0;
    } else {
      var m := BetweenIsSuffix(rows[1..], lo);
      n := m + 1;
      assert rows[1..][m..] == rows[n..];
    }
  }

  // ---- decoding one row ------------------------------------------------------------------------

  datatype Outcome = ShortKey | BadUuid | BadProto | Good(uuid: Bytes, agreement: Agreement)

  type BlobRow = Entry<Blob>

  /** gocql's UUIDFromBytes accepts 16 bytes and nothing else. */
  function Decode(parse: Parser, prefix: Bytes, row: BlobRow): Outcome {
    if |row.key| < |prefix| then ShortKey
    else if |row.key| - |prefix| != 16 then BadUuid
    else
      match Unmarshal(parse, row.value)
      case None => BadProto
      case Some(a) => Good(row.key[|prefix|..], a)
  }

  // ---- applicants ------------------------------------------------------------------------------

  /** The `prev` argument: empty, not a uuid, or the uuid to go on after. */
  datatype Cursor = FromStart | Unparsable | After(uuid: Bytes)

  datatype AgreementWithKey = AgreementWithKey(key: Bytes, agreement: Agreement)

  /** What a stream receives, in the order it is sent. */
  datatype Event<T> = Item(item: T) | Error

  function StartKey(prefix: Bytes, prev: Cursor): Bytes {
    if prev.After? then prefix + prev.uuid else prefix
  }

  /** With a limit the scan has no upper bound; without one it ends before the prefix's successor. */
  function SelectApplicants(table: seq<BlobRow>, prev: Cursor, num: int): seq<BlobRow> {
    var start := StartKey(APPLICATION_PREFIX, prev);
    if num > 0 then Limit(Between(table, start, None), num) else Between(table, start, Some(APPLICATION_END))
  }

  /** `lower` is strings.ToLower, which is not modelled. */
  predicate Matches(lower: Bytes -> Bytes, criterion: Bytes, a: Agreement) {
    criterion == [] || lower(criterion) <= lower(a.memberData.GetOr(EMPTY_MEMBER).name.GetOr([]))
  }

  function Listed(parse: Parser, lower: Bytes -> Bytes, criterion: Bytes, rows: seq<BlobRow>): seq<AgreementWithKey> {
    if rows == [] then []
    else
      var rest := Listed(parse, lower, criterion, rows[..|rows| - 1]);
      match Decode(parse, APPLICATION_PREFIX, rows[|rows| - 1])
      case Good(uuid, a) => if Matches(lower, criterion, a) then rest + [AgreementWithKey(uuid, a)] else rest
      case _ => rest
  }

  /** Everything the streaming copy sends for a sequence of rows. */
  function Streamed(parse: Parser, lower: Bytes -> Bytes, criterion: Bytes, rows: seq<BlobRow>)
    : seq<Event<AgreementWithKey>>
  {
    if rows == [] then []
    else
      Streamed(parse, lower, criterion, rows[..|rows| - 1]) +
      match Decode(parse, APPLICATION_PREFIX, rows[|rows| - 1])
      case Good(uuid, a) => if Matches(lower, criterion, a) then [Item(AgreementWithKey(uuid, a))] else []
      case _ => [Error]
  }

  function Items<T>(log: seq<Event<T>>): seq<T> {
    if log == [] then []
    else Items(log[..|log| - 1]) + if log[|log| - 1].Item? then [log[|log| - 1].item] else []
  }

  function Errors<T>(log: seq<Event<T>>): nat {
    if log == [] then 0 else Errors(log[..|log| - 1]) + if log[|log| - 1].Error? then 1 else 0
  }

  function Undecoded(parse: Parser, prefix: Bytes, rows: seq<BlobRow>): nat {
    if rows == [] then 0
    else Undecoded(parse, prefix, rows[..|rows| - 1]) + if Decode(parse, prefix, rows[|rows| - 1]).Good? then 0 else 1
  }

  method EnumerateMembershipRequests(parse: Parser, lower: Bytes -> Bytes, table: seq<BlobRow>, criterion: Bytes,
                                     prev: Cursor, num: int, closeFails: bool)
    returns (rv: seq<AgreementWithKey>, err: bool)
    ensures prev.Unparsable? ==> rv == [] && err
    ensures !prev.Unparsable? ==>
              rv == Listed(parse, lower, criterion, SelectApplicants(table, prev, num)) && err == closeFails
  {
    rv := [];
    if prev.Unparsable? { return rv, true; }
    var rows := SelectApplicants(table, prev, num);
    var i := 0;
    while i < |rows|
      invariant 0 <= i <= |rows|
      invariant rv == Listed(parse, lower, criterion, rows[..i])
    {
      assert rows[..i + 1][..i] == rows[..i];
      var row := rows[i];
      i := i + 1;
      if |row.key| < |APPLICATION_PREFIX| { continue; }
      var uuid := row.key[|APPLICATION_PREFIX|..];
      if |uuid| != 16 { continue; }
      var agreement := Unmarshal(parse, row.value);
      if agreement.None? { continue; }
      if Matches(lower, criterion, agreement.value) {
        rv := rv + [AgreementWithKey(uuid, agreement.value)];
      }
    }
    assert rows[..|rows|] == rows;
    err := closeFails;
  }

  method StreamingEnumerateMembershipRequests(parse: Parser, lower: Bytes -> Bytes, table: seq<BlobRow>,
                                              criterion: Bytes, prev: Cursor, num: int, closeFails: bool)
    returns (log: seq<Event<AgreementWithKey>>)
    ensures prev.Unparsable? ==> log == [Error]
    ensures !prev.Unparsable? ==>
              log == Streamed(parse, lower, criterion, SelectApplicants(table, prev, num))
                     + if closeFails then [Error] else []
  {
    log := [];
    if prev.Unparsable? { return [Error]; }
    var rows := SelectApplicants(table, prev, num);
    var i := 0;
    while i < |rows|
      invariant 0 <= i <= |rows|
      invariant log == Streamed(parse, lower, criterion, rows[..i])
    {
      assert rows[..i + 1][..i] == rows[..i];
      var row := rows[i];
      i := i + 1;
      if |row.key| < |APPLICATION_PREFIX| { log := log + [Error]; continue; }
      var uuid := row.key[|APPLICATION_PREFIX|..];
      if |uuid| != 16 { log := log + [Error]; continue; }
      var agreement := Unmarshal(parse, row.value);
      if agreement.None? { log := log + [Error]; continue; }
      if Matches(lower, criterion, agreement.value) {
        log := log + [Item(AgreementWithKey(uuid, agreement.value))];
      }
    }
    assert rows[..|rows|] == rows;
    if closeFails { log := log + [Error]; }
  }

  lemma LogGrows<T>(log: seq<Event<T>>, e: Event<T>)
    ensures Items(log + [e]) == Items(log) + if e.Item? then [e.item] else []
    ensures Errors(log + [e]) == Errors(log) + if e.Error? then 1 else 0
  {
    assert (log + [e])[..|log|] == log;
  }

  /** The stream carries exactly the list, in order, and one error for each row the list skips;
      without a criterion every row scanned is one or the other. */
  lemma {:induction false} StreamIsList(parse: Parser, lower: Bytes -> Bytes, criterion: Bytes, rows: seq<BlobRow>)
    ensures Items(Streamed(parse, lower, criterion, rows)) == Listed(parse, lower, criterion, rows)
    ensures Errors(Streamed(parse, lower, criterion, rows)) == Undecoded(parse, APPLICATION_PREFIX, rows)
    ensures criterion == [] ==>
              |Items(Streamed(parse, lower, criterion, rows))| + Errors(Streamed(parse, lower, criterion, rows))
              == |rows|
  {
    if rows == [] {
    } else {
      var n := |rows| - 1;
      var log := Streamed(parse, lower, criterion, rows[..n]);
      StreamIsList(parse, lower, criterion, rows[..n]);
      StreamStep(parse, lower, criterion, log, Streamed(parse, lower, criterion, rows), rows[n]);
    }
  }

  /** What one row adds to a stream, in items and errors. */
  lemma StreamStep(parse: Parser, lower: Bytes -> Bytes, criterion: Bytes, log: seq<Event<AgreementWithKey>>,
                   longer: seq<Event<AgreementWithKey>>, row: BlobRow)
    requires longer == log + match Decode(parse, APPLICATION_PREFIX, row) {
                               case Good(uuid, a) =>
                                 if Matches(lower, criterion, a) then [Item(AgreementWithKey(uuid, a))] else []
                               case _ => [Error]
                             }
    ensures Errors(longer) == Errors(log) + if Decode(parse, APPLICATION_PREFIX, row).Good? then 0 else 1
    ensures match Decode(parse, APPLICATION_PREFIX, row) {
              case Good(uuid, a) =>
                Items(longer) == Items(log) + if Matches(lower, criterion, a) then [AgreementWithKey(uuid, a)] else []
              case _ => Items(longer) == Items(log)
            }
  {
    match Decode(parse, APPLICATION_PREFIX, row)
    case Good(uuid, a) =>
      if Matches(lower, criterion, a) {
        LogGrows(log, Item(AgreementWithKey(uuid, a)));
      } else {
        assert longer == log;
      }
    case _ => LogGrows(log, Error);
  }

  /** What the applicant scans look at: after the cursor, the first `num` rows of the table, or all that sort before
      the prefix's successor, in order. */
  lemma ApplicantSelection(table: seq<BlobRow>, prev: Cursor, num: int, r: BlobRow) returns (n: nat)
    requires Sorted(table)
    ensures n <= |table|
    ensures forall i :: 0 <= i < |table| ==>
              (n <= i <==>
                 Less(if prev.After? then APPLICATION_PREFIX + prev.uuid else APPLICATION_PREFIX, table[i].key))
    ensures num > 0 ==>
              SelectApplicants(table, prev, num) == if num < |table| - n then table[n..n + num] else table[n..]
    ensures num <= 0 ==>
              && Sorted(SelectApplicants(table, prev, num))
              && (r in SelectApplicants(table, prev, num) <==> r in table[n..] && Less(r.key, APPLICATION_END))
  {
    var start := StartKey(APPLICATION_PREFIX, prev);
    n := AfterCursor(table, APPLICATION_PREFIX, prev, num);
    if num <= 0 {
      BetweenSorted(table, start, Some(APPLICATION_END));
      BetweenContains(table, start, Some(APPLICATION_END), r);
      if i :| 0 <= i < |table| && table[i] == r { SuffixHolds(table, n, i); }
      assert r in table[n..] ==> r in table;
    }
  }

  /** What one row comes to: an item under the uuid that ends its key, if the key has one, the blob decodes, and the
      name starts with the criterion, both in lower case. */
  lemma ListedOne(parse: Parser, lower: Bytes -> Bytes, criterion: Bytes, row: BlobRow)
    ensures var u := row.key[if |row.key| < 10 then 0 else 10..]; var a := Unmarshal(parse, row.value);
            Listed(parse, lower, criterion, [row])
            == if |row.key| == 26 && a.Some?
                  && (criterion == [] || StartsWith(lower(NameOf(a.value)), lower(criterion)))
               then [AgreementWithKey(u, a.value)] else []
    ensures var u := row.key[if |row.key| < 10 then 0 else 10..]; var a := Unmarshal(parse, row.value);
            Streamed(parse, lower, criterion, [row])
            == if !(|row.key| == 26 && a.Some?) then [Error]
               else if criterion == [] || StartsWith(lower(NameOf(a.value)), lower(criterion))
               then [Item(AgreementWithKey(u, a.value))] else []
  {
    assert [row][..0] == [];
  }

  function NameOf(a: Agreement): Bytes {
    if a.memberData.Some? && a.memberData.value.name.Some? then a.memberData.value.name.value else []
  }

  predicate StartsWith(text: Bytes, start: Bytes) {
    |start| <= |text| && forall i :: 0 <= i < |start| ==> text[i] == start[i]
  }

  lemma {:induction false} StreamedConcat(parse: Parser, lower: Bytes -> Bytes, criterion: Bytes,
                                          a: seq<BlobRow>, b: seq<BlobRow>)
    ensures Streamed(parse, lower, criterion, a + b)
            == Streamed(parse, lower, criterion, a) + Streamed(parse, lower, criterion, b)
  {
    if b == [] {
      assert a + b == a;
    } else {
      var n := |b| - 1;
      StreamedConcat(parse, lower, criterion, a, b[..n]);
      assert (a + b)[..|a + b| - 1] == a + b[..n] && (a + b)[|a + b| - 1] == b[n];
    }
  }

  /** The unbounded scan selects exactly the keys that properly extend the prefix, so its short-key branch is dead. */
  lemma UnboundedScanIsThePrefix(parse: Parser, table: seq<BlobRow>, r: BlobRow)
    ensures r in SelectApplicants(table, FromStart, 0) <==> r in table && APPLICATION_PREFIX < r.key
    ensures r in SelectApplicants(table, FromStart, 0) ==> !Decode(parse, APPLICATION_PREFIX, r).ShortKey?
  {
    var stem := APPLICATION_PREFIX[..9];
    assert APPLICATION_PREFIX == stem + [58] && APPLICATION_END == stem + [59];
    BetweenContains(table, APPLICATION_PREFIX, Some(APPLICATION_END), r);
    RangeIsProperExtensions(stem, 58, r.key);
  }

  // ---- paging by uuid --------------------------------------------------------------------------

  ghost predicate WellFormed(parse: Parser, table: seq<BlobRow>) {
    forall i :: 0 <= i < |table| ==>
      APPLICATION_PREFIX <= table[i].key && Decode(parse, APPLICATION_PREFIX, table[i]).Good?
  }

  /** Well-formed rows are all listed, each under the uuid that ends its key. */
  lemma {:induction false} WellFormedAreListed(parse: Parser, lower: Bytes -> Bytes, rows: seq<BlobRow>)
    requires WellFormed(parse, rows)
    ensures |Listed(parse, lower, [], rows)| == |rows|
    ensures forall i :: 0 <= i < |rows| ==> APPLICATION_PREFIX + Listed(parse, lower, [], rows)[i].key == rows[i].key
  {
    if rows == [] {
    } else {
      var n := |rows| - 1;
      WellFormedAreListed(parse, lower, rows[..n]);
      assert APPLICATION_PREFIX <= rows[n].key;
    }
  }

  lemma {:induction false} ListedConcat(parse: Parser, lower: Bytes -> Bytes, criterion: Bytes,
                                        a: seq<BlobRow>, b: seq<BlobRow>)
    ensures Listed(parse, lower, criterion, a + b)
            == Listed(parse, lower, criterion, a) + Listed(parse, lower, criterion, b)
  {
    if b == [] {
      assert a + b == a;
    } else {
      var n := |b| - 1;
      ListedConcat(parse, lower, criterion, a, b[..n]);
      assert (a + b)[..|a + b| - 1] == a + b[..n] && (a + b)[|a + b| - 1] == b[n];
    }
  }

  /** A page and the cursor it hands on: the next page starts at the very next row. */
  lemma PagesAreAdjacent(parse: Parser, lower: Bytes -> Bytes, table: seq<BlobRow>, start: nat, num: int)
    requires Sorted(table) && WellFormed(parse, table) && start <= |table| && num > 0
    ensures var page := Limit(table[start..], num); var items := Listed(parse, lower, [], page);
            items != [] ==>
              Between(table, StartKey(APPLICATION_PREFIX, After(items[|items| - 1].key)), None)
              == table[start + |page|..]
  {
    var page := Limit(table[start..], num);
    WellFormedAreListed(parse, lower, page);
    if page != [] { AfterRow(table, start + |page| - 1); }
  }

  /** Asking for page after page, each from the last uuid listed. */
  ghost function AllPages(parse: Parser, lower: Bytes -> Bytes, table: seq<BlobRow>, prev: Cursor, num: int)
    : seq<AgreementWithKey>
    requires Sorted(table) && WellFormed(parse, table) && num > 0
    decreases |Between(table, StartKey(APPLICATION_PREFIX, prev), None)|
  {
    var items := Listed(parse, lower, [], SelectApplicants(table, prev, num));
    if items == [] then []
    else
      NextPageIsSmaller(parse, lower, table, prev, num);
      items + AllPages(parse, lower, table, After(items[|items| - 1].key), num)
  }

  lemma NextPageIsSmaller(parse: Parser, lower: Bytes -> Bytes, table: seq<BlobRow>, prev: Cursor, num: int)
    requires Sorted(table) && WellFormed(parse, table) && num > 0
    ensures var rest := Between(table, StartKey(APPLICATION_PREFIX, prev), None);
            var page := SelectApplicants(table, prev, num);
            var items := Listed(parse, lower, [], page);
            && page == Limit(rest, num) && |items| == |page|
            && (items != [] ==>
                  Between(table, StartKey(APPLICATION_PREFIX, After(items[|items| - 1].key)), None) == rest[|page|..])
  {
    var n := BetweenIsSuffix(table, StartKey(APPLICATION_PREFIX, prev));
    SuffixPage(parse, lower, table, n, num);
  }

  lemma SuffixPage(parse: Parser, lower: Bytes -> Bytes, table: seq<BlobRow>, n: nat, num: int)
    requires Sorted(table) && WellFormed(parse, table) && num > 0 && n <= |table|
    ensures var page := Limit(table[n..], num); var items := Listed(parse, lower, [], page);
            && |items| == |page|
            && (items != [] ==>
                  Between(table, StartKey(APPLICATION_PREFIX, After(items[|items| - 1].key)), None)
                  == table[n..][|page|..])
  {
    PagesAreAdjacent(parse, lower, table, n, num);
    WellFormedAreListed(parse, lower, Limit(table[n..], num));
    assert table[n..][|Limit(table[n..], num)|..] == table[n + |Limit(table[n..], num)|..];
  }

  /** Together the pages list every applicant after the cursor, once, in key order, whatever the page size. */
  lemma {:induction false} PagesAreComplete(parse: Parser, lower: Bytes -> Bytes, table: seq<BlobRow>, prev: Cursor,
                                            num: int)
    requires Sorted(table) && WellFormed(parse, table) && num > 0
    ensures AllPages(parse, lower, table, prev, num)
            == Listed(parse, lower, [], Between(table, StartKey(APPLICATION_PREFIX, prev), None))
    decreases |Between(table, StartKey(APPLICATION_PREFIX, prev), None)|
  {
    var rest := Between(table, StartKey(APPLICATION_PREFIX, prev), None);
    var page := SelectApplicants(table, prev, num);
    var items := Listed(parse, lower, [], page);
    NextPageIsSmaller(parse, lower, table, prev, num);
    if items == [] {
    } else {
      PagesAreComplete(parse, lower, table, After(items[|items| - 1].key), num);
      FirstPageThenRest(parse, lower, rest, num);
    }
  }

  lemma FirstPageThenRest(parse: Parser, lower: Bytes -> Bytes, rest: seq<BlobRow>, num: int)
    requires num > 0
    ensures var page := Limit(rest, num);
            Listed(parse, lower, [], rest) == Listed(parse, lower, [], page) + Listed(parse, lower, [], rest[|page|..])
  {
    var page := Limit(rest, num);
    assert rest == page + rest[|page|..];
    ListedConcat(parse, lower, [], page, rest[|page|..]);
  }

  // ---- the queue, the departing queue and the archive --------------------------------------------

  datatype QueuedMember = QueuedMember(key: Bytes, member: Member)

  /** The entry a decoded row is listed as. */
  function QueuedItem(uuid: Bytes, a: Agreement): QueuedMember {
    QueuedMember(uuid, a.memberData.GetOr(EMPTY_MEMBER))
  }

  function SelectQueued(table: seq<BlobRow>, prefix: Bytes, prev: Cursor, num: int): seq<BlobRow> {
    Limit(Between(table, StartKey(prefix, prev), None), num)
  }

  function QueueStreamed(parse: Parser, prefix: Bytes, rows: seq<BlobRow>): seq<Event<QueuedMember>> {
    if rows == [] then []
    else
      QueueStreamed(parse, prefix, rows[..|rows| - 1]) +
      match Decode(parse, prefix, rows[|rows| - 1])
      case Good(uuid, a) => [Item(QueuedItem(uuid, a))]
      case _ => [Error]
  }

  function QueueListed(parse: Parser, prefix: Bytes, rows: seq<BlobRow>): seq<QueuedMember> {
    if rows == [] then []
    else
      QueueListed(parse, prefix, rows[..|rows| - 1]) +
      match Decode(parse, prefix, rows[|rows| - 1])
      case Good(uuid, a) => [QueuedItem(uuid, a)]
      case _ => []
  }

  predicate HasShortKey(prefix: Bytes, rows: seq<BlobRow>) {
    exists i :: 0 <= i < |rows| && |rows[i].key| < |prefix|
  }

  lemma HasShortKeyIff(prefix: Bytes, rows: seq<BlobRow>)
    ensures HasShortKey(prefix, rows) <==> exists r :: r in rows && |r.key| < |prefix|
  {
  }

  /** The list form gives up on the first short key and returns nothing but an error. */
  method EnumerateQueuedMembersIn(parse: Parser, table: seq<BlobRow>, prefix: Bytes, prev: Cursor, num: int,
                                  closeFails: bool)
    returns (rv: seq<QueuedMember>, err: bool)
    ensures prev.Unparsable? || HasShortKey(prefix, SelectQueued(table, prefix, prev, num)) ==> rv == [] && err
    ensures !prev.Unparsable? && !HasShortKey(prefix, SelectQueued(table, prefix, prev, num)) ==>
              rv == QueueListed(parse, prefix, SelectQueued(table, prefix, prev, num)) && err == closeFails
  {
    rv := [];
    if prev.Unparsable? { return rv, true; }
    var rows := SelectQueued(table, prefix, prev, num);
    var i := 0;
    while i < |rows|
      invariant 0 <= i <= |rows|
      invariant forall k :: 0 <= k < i ==> |rows[k].key| >= |prefix|
      invariant rv == QueueListed(parse, prefix, rows[..i])
    {
      QueuedNext(parse, prefix, rows, i, rv);
      var row := rows[i];
      if |row.key| < |prefix| { return [], true; }
      i := i + 1;
      var uuid := row.key[|prefix|..];
      if |uuid| != 16 { continue; }
      var agreement := Unmarshal(parse, row.value);
      if agreement.None? { continue; }
      rv := rv + [QueuedItem(uuid, agreement.value)];
    }
    assert rows[..|rows|] == rows;
    err := closeFails;
  }

  lemma QueuedNext(parse: Parser, prefix: Bytes, rows: seq<BlobRow>, i: nat, before: seq<QueuedMember>)
    requires i < |rows| && before == QueueListed(parse, prefix, rows[..i])
    ensures QueueListed(parse, prefix, rows[..i + 1])
            == match Decode(parse, prefix, rows[i]) {
                 case Good(uuid, a) => before + [QueuedItem(uuid, a)]
                 case _ => before
               }
  {
    assert rows[..i + 1][..i] == rows[..i] && before + [] == before;
  }

  /** The streaming form reports each undecodable row, short keys included, and carries on. */
  method StreamingEnumerateQueuedMembersIn(parse: Parser, table: seq<BlobRow>, prefix: Bytes, prev: Cursor, num: int,
                                           closeFails: bool)
    returns (log: seq<Event<QueuedMember>>)
    ensures prev.Unparsable? ==> log == [Error]
    ensures !prev.Unparsable? ==>
              log == QueueStreamed(parse, prefix, SelectQueued(table, prefix, prev, num))
                     + if closeFails then [Error] else []
  {
    log := [];
    if prev.Unparsable? { return [Error]; }
    var rows := SelectQueued(table, prefix, prev, num);
    var i := 0;
    while i < |rows|
      invariant 0 <= i <= |rows|
      invariant log == QueueStreamed(parse, prefix, rows[..i])
    {
      assert rows[..i + 1][..i] == rows[..i];
      var row := rows[i];
      i := i + 1;
      if |row.key| < |prefix| { log := log + [Error]; continue; }
      var uuid := row.key[|prefix|..];
      if |uuid| != 16 { log := log + [Error]; continue; }
      var agreement := Unmarshal(parse, row.value);
      if agreement.None? { log := log + [Error]; continue; }
      log := log + [Item(QueuedItem(uuid, agreement.value))];
    }
    assert rows[..|rows|] == rows;
    if closeFails { log := log + [Error]; }
  }

  /** Without a short key the two copies deliver the same records in the same order; in any case
      the stream has a record or an error for every row, as many errors as undecodable rows. */
  lemma {:induction false} QueueStreamIsList(parse: Parser, prefix: Bytes, rows: seq<BlobRow>)
    ensures Items(QueueStreamed(parse, prefix, rows)) == QueueListed(parse, prefix, rows)
    ensures Errors(QueueStreamed(parse, prefix, rows)) == Undecoded(parse, prefix, rows)
    ensures |QueueListed(parse, prefix, rows)| + Errors(QueueStreamed(parse, prefix, rows)) == |rows|
  {
    if rows == [] {
    } else {
      var n := |rows| - 1;
      QueueStreamIsList(parse, prefix, rows[..n]);
      var log := QueueStreamed(parse, prefix, rows[..n]);
      match Decode(parse, prefix, rows[n])
      case Good(uuid, a) => LogGrows(log, Item(QueuedItem(uuid, a)));
      case _ => LogGrows(log, Error);
    }
  }

  // ---- the queue: rows, cursor, pages ------------------------------------------------------------

  /** What one row of the queue comes to in each copy: an item under the uuid that ends its key, or else nothing in
      the list and an error in the stream. */
  lemma QueueListedOne(parse: Parser, prefix: Bytes, row: BlobRow)
    ensures var u := row.key[if |row.key| < |prefix| then 0 else |prefix|..]; var a := Unmarshal(parse, row.value);
            var good := |row.key| == |prefix| + 16 && a.Some?;
            && QueueListed(parse, prefix, [row])
               == (if good then [QueuedMember(u, a.value.memberData.GetOr(EMPTY_MEMBER))] else [])
            && QueueStreamed(parse, prefix, [row])
               == if good then [Item(QueuedMember(u, a.value.memberData.GetOr(EMPTY_MEMBER)))] else [Error]
  {
    assert [row][..0] == [];
  }

  lemma {:induction false} QueueConcat(parse: Parser, prefix: Bytes, a: seq<BlobRow>, b: seq<BlobRow>)
    ensures QueueListed(parse, prefix, a + b) == QueueListed(parse, prefix, a) + QueueListed(parse, prefix, b)
  {
    if b == [] {
      assert a + b == a;
    } else {
      var n := |b| - 1;
      QueueConcat(parse, prefix, a, b[..n]);
      assert (a + b)[..|a + b| - 1] == a + b[..n] && (a + b)[|a + b| - 1] == b[n];
    }
  }

  lemma {:induction false} QueueStreamConcat(parse: Parser, prefix: Bytes, a: seq<BlobRow>, b: seq<BlobRow>)
    ensures QueueStreamed(parse, prefix, a + b) == QueueStreamed(parse, prefix, a) + QueueStreamed(parse, prefix, b)
  {
    if b == [] {
      assert a + b == a;
    } else {
      var n := |b| - 1;
      QueueStreamConcat(parse, prefix, a, b[..n]);
      assert (a + b)[..|a + b| - 1] == a + b[..n] && (a + b)[|a + b| - 1] == b[n];
    }
  }

  /** What the queue scans look at: the first `num` rows after the cursor, or all of them, in order. */
  lemma QueueSelection(table: seq<BlobRow>, prefix: Bytes, prev: Cursor, num: int) returns (n: nat)
    requires Sorted(table)
    ensures n <= |table|
    ensures forall i :: 0 <= i < |table| ==>
              (n <= i <==> Less(if prev.After? then prefix + prev.uuid else prefix, table[i].key))
    ensures SelectQueued(table, prefix, prev, num) == if 0 < num < |table| - n then table[n..n + num] else table[n..]
  {
    n := AfterCursor(table, prefix, prev, num);
  }

  ghost predicate QueueWellFormed(parse: Parser, prefix: Bytes, table: seq<BlobRow>) {
    forall i :: 0 <= i < |table| ==> prefix <= table[i].key && Decode(parse, prefix, table[i]).Good?
  }

  lemma {:induction false} WellFormedAreQueued(parse: Parser, prefix: Bytes, rows: seq<BlobRow>)
    requires QueueWellFormed(parse, prefix, rows)
    ensures |QueueListed(parse, prefix, rows)| == |rows|
    ensures forall i :: 0 <= i < |rows| ==> prefix + QueueListed(parse, prefix, rows)[i].key == rows[i].key
  {
    if rows == [] {
    } else {
      var n := |rows| - 1;
      WellFormedAreQueued(parse, prefix, rows[..n]);
      assert prefix <= rows[n].key;
    }
  }

  /** The last uuid of a page is the cursor from which the next page starts at the very next row. */
  lemma QueuePageAt(parse: Parser, prefix: Bytes, table: seq<BlobRow>, n: nat, num: int)
    requires Sorted(table) && QueueWellFormed(parse, prefix, table) && num > 0 && n <= |table|
    ensures var page := Limit(table[n..], num); var items := QueueListed(parse, prefix, page);
            && |items| == |page|
            && (items != [] ==>
                  Between(table, StartKey(prefix, After(items[|items| - 1].key)), None) == table[n..][|page|..])
  {
    var page := Limit(table[n..], num);
    WellFormedAreQueued(parse, prefix, page);
    if page != [] { AfterRow(table, n + |page| - 1); }
    assert table[n..][|page|..] == table[n + |page|..];
  }

  /** Asking for page after page, each from the last uuid listed. */
  ghost function AllQueuePages(parse: Parser, prefix: Bytes, table: seq<BlobRow>, prev: Cursor, num: int)
    : seq<QueuedMember>
    requires Sorted(table) && QueueWellFormed(parse, prefix, table) && num > 0
    decreases |Between(table, StartKey(prefix, prev), None)|
  {
    var items := QueueListed(parse, prefix, SelectQueued(table, prefix, prev, num));
    if items == [] then []
    else
      QueueRestIsSmaller(parse, prefix, table, prev, num);
      items + AllQueuePages(parse, prefix, table, After(items[|items| - 1].key), num)
  }

  lemma QueueRestIsSmaller(parse: Parser, prefix: Bytes, table: seq<BlobRow>, prev: Cursor, num: int)
    requires Sorted(table) && QueueWellFormed(parse, prefix, table) && num > 0
    ensures var rest := Between(table, StartKey(prefix, prev), None);
            var page := SelectQueued(table, prefix, prev, num); var items := QueueListed(parse, prefix, page);
            && page == Limit(rest, num) && |items| == |page|
            && (items != [] ==>
                  Between(table, StartKey(prefix, After(items[|items| - 1].key)), None) == rest[|page|..])
  {
    var n := BetweenIsSuffix(table, StartKey(prefix, prev));
    QueuePageAt(parse, prefix, table, n, num);
  }

  /** Together the pages list every row after the cursor, once, in key order, whatever the page size. */
  lemma {:induction false} QueuePagesAreComplete(parse: Parser, prefix: Bytes, table: seq<BlobRow>, prev: Cursor,
                                                 num: int)
    requires Sorted(table) && QueueWellFormed(parse, prefix, table) && num > 0
    ensures AllQueuePages(parse, prefix, table, prev, num)
            == QueueListed(parse, prefix, Between(table, StartKey(prefix, prev), None))
    decreases |Between(table, StartKey(prefix, prev), None)|
  {
    var rest := Between(table, StartKey(prefix, prev), None);
    var page := SelectQueued(table, prefix, prev, num);
    var items := QueueListed(parse, prefix, page);
    QueueRestIsSmaller(parse, prefix, table, prev, num);
    if items == [] {
      assert rest == [];
    } else {
      QueuePagesAreComplete(parse, prefix, table, After(items[|items| - 1].key), num);
      FirstQueuePageThenRest(parse, prefix, rest, num);
    }
  }

  lemma FirstQueuePageThenRest(parse: Parser, prefix: Bytes, rest: seq<BlobRow>, num: int)
    requires num > 0
    ensures var page := Limit(rest, num);
            QueueListed(parse, prefix, rest)
            == QueueListed(parse, prefix, page) + QueueListed(parse, prefix, rest[|page|..])
  {
    var page := Limit(rest, num);
    assert rest == page + rest[|page|..];
    QueueConcat(parse, prefix, page, rest[|page|..]);
  }
}
