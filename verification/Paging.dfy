/** The members enumeration, and the loop that prints all members page by page. */
module Paging {
  import opened ByteStrings
  import opened Records
  import opened Scans
  import opened Decimal

  type MemberRow = Entry<Columns>

  lemma MemberPrefixSpells()
    ensures MEMBER_PREFIX == Ascii("member:")
  {
  }

  const MEMBER_PREFIX: Bytes := [109, 101, 109, 98, 101, 114, 58]  // "member:"

  /** `email > ''`, which a row without an email column does not meet. */
  predicate HasEmail(r: MemberRow) {
    EmailColumn in r.value && r.value[EmailColumn].TextValue? && r.value[EmailColumn].text != []
  }

  function WithEmail(rows: seq<MemberRow>): seq<MemberRow> {
    if rows == [] then []
    else (if HasEmail(rows[0]) then [rows[0]] else []) + WithEmail(rows[1..])
  }

  /** The rows after `prev`, filtered by email, then limited. */
  function SelectMembers(table: seq<MemberRow>, prev: Bytes, num: int): seq<MemberRow> {
    Limit(WithEmail(Between(table, MEMBER_PREFIX + prev, None)), num)
  }

  const SELECTED: set<Column> := {NameColumn, StreetColumn, CityColumn, CountryColumn, EmailColumn, PhoneColumn,
                                  UsernameColumn, FeeColumn, FeeYearlyColumn, HasKeyColumn, PaymentsColumn}

  /** What MapScan makes of a null column: the zero value of its type. */
  function Zero(c: Column): CqlValue {
    match c
    case FeeColumn => BigintValue(0)
    case PaymentsColumn => BigintValue(0)
    case FeeYearlyColumn => BooleanValue(false)
    case HasKeyColumn => BooleanValue(false)
    case _ => TextValue([])
  }

  function Scanned(columns: Columns): Columns {
    map c | c in SELECTED :: if c in columns then columns[c] else Zero(c)
  }

  function MemberOf(r: MemberRow): Member { MemberFromRow(Scanned(r.value)) }

  /** A row with nothing but null columns still reads as a member: every selected field is there and zero. */
  lemma NullsReadAsZero(key: Bytes)
    ensures MemberOf(Entry(key, map[]))
            == Member(None, Some([]), Some([]), Some([]), None, Some([]), Some([]), None, Some([]), Some(0), Some([]),
                      None, Some(false), Some(false), Some(0))
  {
  }

  function Mapped<T, U>(f: T -> U, s: seq<T>): seq<U> {
    seq(|s|, i requires 0 <= i < |s| => f(s[i]))
  }

  lemma MappedConcat<T, U>(f: T -> U, a: seq<T>, b: seq<T>)
    ensures Mapped(f, a + b) == Mapped(f, a) + Mapped(f, b)
  {
  }

  lemma MappedOne<T, U>(f: T -> U, x: T)
    ensures Mapped(f, [x]) == [f(x)]
  {
  }

  function MembersOf(rows: seq<MemberRow>): seq<Member> { Mapped(MemberOf, rows) }

  method EnumerateMembers(table: seq<MemberRow>, prev: Bytes, num: int, closeFails: bool)
    returns (rv: seq<Member>, err: bool)
    ensures rv == MembersOf(SelectMembers(table, prev, num)) && err == closeFails
  {
    var rows := SelectMembers(table, prev, num);
    rv := [];
    var i := 0;
    while i < |rows|
      invariant 0 <= i <= |rows|
      invariant rv == MembersOf(rows[..i])
    {
      assert rows[..i + 1] == rows[..i] + [rows[i]];
      MappedConcat(MemberOf, rows[..i], [rows[i]]);
      MappedOne(MemberOf, rows[i]);
      rv := rv + [MemberOf(rows[i])];
      i := i + 1;
    }
    assert rows[..|rows|] == rows;
    err := closeFails;
  }

  // ---- the printing loop -----------------------------------------------------------------------

  /** Every row with an email is kept under that email. */
  ghost predicate KeyedByEmail(table: seq<MemberRow>) {
    forall i :: 0 <= i < |table| && HasEmail(table[i]) ==>
      table[i].key == MEMBER_PREFIX + table[i].value[EmailColumn].text
  }

  /** The row a cursor left at row `i - 1` goes on with. The cursor is the last email with a NUL
      appended, so it passes over one key more than the printed one: that key with a NUL. */
  function NextRow(rows: seq<MemberRow>, i: nat): (j: nat)
    requires 0 < i <= |rows|
    ensures i <= j <= |rows|
  {
    if i < |rows| && rows[i].key == rows[i - 1].key + [0] then i + 1 else i
  }

  function PageEnd(rows: seq<MemberRow>, start: nat, num: int): (end: nat)
    requires num > 0 && start <= |rows|
    ensures start <= end <= |rows| && (start < |rows| ==> start < end)
  {
    if start + num < |rows| then start + num else |rows|
  }

  /** What the loop prints of the rows with an email, from row `start` on. */
  function Printed(rows: seq<MemberRow>, start: nat, num: int): seq<MemberRow>
    requires num > 0 && start <= |rows|
    decreases |rows| - start
  {
    if start == |rows| then []
    else
      var end := PageEnd(rows, start, num);
      rows[start..end] + Printed(rows, NextRow(rows, end), num)
  }

  lemma {:induction false} FilterThenCut(rows: seq<MemberRow>, lo: Bytes)
    ensures WithEmail(Between(rows, lo, None)) == Between(WithEmail(rows), lo, None)
  {
    if rows == [] {
    } else {
      FilterThenCut(rows[1..], lo);
      assert ([rows[0]] + WithEmail(rows[1..]))[1..] == WithEmail(rows[1..]);
      assert ([rows[0]] + Between(rows[1..], lo, None))[1..] == Between(rows[1..], lo, None);
      assert [] + WithEmail(rows[1..]) == WithEmail(rows[1..]);
    }
  }

  lemma {:induction false} WithEmailKeeps(rows: seq<MemberRow>, r: MemberRow)
    ensures r in WithEmail(rows) <==> r in rows && HasEmail(r)
  {
    if rows == [] {
    } else {
      WithEmailKeeps(rows[1..], r);
      assert r in rows <==> r == rows[0] || r in rows[1..];
    }
  }

  lemma {:induction false} WithEmailSorted(rows: seq<MemberRow>)
    requires Sorted(rows)
    ensures Sorted(WithEmail(rows))
  {
    if rows == [] {
    } else {
      var rest := WithEmail(rows[1..]);
      WithEmailSorted(rows[1..]);
      forall i | 0 <= i < |rest| ensures Less(rows[0].key, rest[i].key) {
        WithEmailKeeps(rows[1..], rest[i]);
        var j :| 0 <= j < |rows[1..]| && rows[1..][j] == rest[i];
        assert rows[1 + j] == rest[i];
      }
    }
  }

  lemma {:induction false} SameCut(rows: seq<MemberRow>, a: Bytes, b: Bytes)
    requires forall i :: 0 <= i < |rows| ==> (Less(a, rows[i].key) <==> Less(b, rows[i].key))
    ensures Between(rows, a, None) == Between(rows, b, None)
  {
    if rows == [] {
    } else {
      SameCut(rows[1..], a, b);
    }
  }

  /** Where the cursor after row `i` goes on. */
  lemma CursorAfterRow(rows: seq<MemberRow>, i: nat)
    requires Sorted(rows) && i < |rows|
    ensures Between(rows, rows[i].key + [0], None) == rows[NextRow(rows, i + 1)..]
  {
    var k := rows[i].key;
    if i + 1 < |rows| && rows[i + 1].key == k + [0] {
      AfterRow(rows, i + 1);
    } else {
      forall j | 0 <= j < |rows| ensures Less(k + [0], rows[j].key) <==> Less(k, rows[j].key) {
        AfterNul(k, rows[j].key);
        if rows[j].key == k + [0] {
          LessOfExtension(k, [0]);
          LessIrreflexive(k);
          if j < i { LessAsymmetric(rows[j].key, k); }
          if j > i + 1 {
            AfterNul(k, rows[i + 1].key);
            LessAsymmetric(rows[i + 1].key, rows[j].key);
          }
        }
      }
      SameCut(rows, k + [0], k);
      AfterRow(rows, i);
    }
  }

  /** A row with an email ends where its email ends, so the loop's cursor is its key and a NUL. */
  lemma CursorIsKeyAndNul(table: seq<MemberRow>, last: MemberRow)
    requires KeyedByEmail(table) && last in WithEmail(table)
    ensures HasEmail(last) && MEMBER_PREFIX + (last.value[EmailColumn].text + [0]) == last.key + [0]
  {
    WithEmailKeeps(table, last);
    var j :| 0 <= j < |table| && table[j] == last;
    assert MEMBER_PREFIX + (last.value[EmailColumn].text + [0]) == MEMBER_PREFIX + last.value[EmailColumn].text + [0];
  }

  lemma LimitIsPage(rows: seq<MemberRow>, n: nat, num: int)
    requires n <= |rows| && num > 0
    ensures Limit(rows[n..], num) == rows[n..PageEnd(rows, n, num)]
  {
  }

  /** What one round of the loop fetches, in terms of the rows with an email. */
  lemma RoundFetches(table: seq<MemberRow>, prev: Bytes, num: int, n: nat)
    requires num > 0 && n <= |WithEmail(table)|
    requires Between(WithEmail(table), MEMBER_PREFIX + prev, None) == WithEmail(table)[n..]
    ensures SelectMembers(table, prev, num) == WithEmail(table)[n..PageEnd(WithEmail(table), n, num)]
  {
    FilterThenCut(table, MEMBER_PREFIX + prev);
    LimitIsPage(WithEmail(table), n, num);
  }

  /** Where the next round starts when the last row printed was row `i`. */
  lemma NextRoundStarts(table: seq<MemberRow>, i: nat)
    requires Sorted(table) && KeyedByEmail(table) && i < |WithEmail(table)|
    ensures HasEmail(WithEmail(table)[i])
    ensures Between(WithEmail(table), MEMBER_PREFIX + (WithEmail(table)[i].value[EmailColumn].text + [0]), None)
            == WithEmail(table)[NextRow(WithEmail(table), i + 1)..]
  {
    WithEmailSorted(table);
    CursorIsKeyAndNul(table, WithEmail(table)[i]);
    CursorAfterRow(WithEmail(table), i);
  }

  lemma EmailOfMember(r: MemberRow)
    requires HasEmail(r)
    ensures MemberOf(r).GetEmail() == r.value[EmailColumn].text
  {
  }

  /** The cursor left by printing these members, and by printing this row. */
  function CursorAfter(members: seq<Member>): Bytes
    requires members != []
  {
    members[|members| - 1].GetEmail() + [0]
  }

  function CursorOf(r: MemberRow): Bytes
    requires HasEmail(r)
  {
    r.value[EmailColumn].text + [0]
  }

  /** After this cursor the loop goes on with row `n` of those with an email. */
  ghost predicate ResumesAt(rows: seq<MemberRow>, prevKey: Bytes, n: int) {
    0 <= n <= |rows| && Between(rows, MEMBER_PREFIX + prevKey, None) == rows[n..]
  }

  lemma MappedLast<T, U>(f: T -> U, s: seq<T>)
    requires s != []
    ensures Mapped(f, s)[|s| - 1] == f(s[|s| - 1])
  {
  }

  /** The cursor a page leaves, whatever its rows are kept under. */
  function NextCursor(page: seq<MemberRow>): Bytes
    requires page != []
  {
    CursorAfter(MembersOf(page))
  }

  lemma PageCursor(page: seq<MemberRow>, last: MemberRow)
    requires page != [] && last == page[|page| - 1] && HasEmail(last)
    ensures NextCursor(page) == CursorOf(last)
  {
    MappedLast(MemberOf, page);
    EmailOfMember(last);
  }

  /** After this cursor the loop ends within so many rounds. */
  ghost predicate Ends(table: seq<MemberRow>, prevKey: Bytes, num: int, rounds: nat)
    decreases rounds
  {
    var page := SelectMembers(table, prevKey, num);
    page == [] || (rounds > 0 && Ends(table, NextCursor(page), num, rounds - 1))
  }

  /** What it fetches until then. */
  ghost function Fetched(table: seq<MemberRow>, prevKey: Bytes, num: int, rounds: nat): seq<MemberRow>
    requires Ends(table, prevKey, num, rounds)
    decreases rounds
  {
    var page := SelectMembers(table, prevKey, num);
    if page == [] then [] else page + Fetched(table, NextCursor(page), num, rounds - 1)
  }

  function NextStart(rows: seq<MemberRow>, n: nat, num: int): (m: nat)
    requires num > 0 && n < |rows|
    ensures n < m <= |rows|
  {
    NextRow(rows, PageEnd(rows, n, num))
  }

  /** A round fetches a page of what is left, and an empty one only when nothing is. */
  lemma RoundFetchesPage(table: seq<MemberRow>, num: int, prevKey: Bytes, n: int)
    requires num > 0 && ResumesAt(WithEmail(table), prevKey, n)
    ensures SelectMembers(table, prevKey, num) == WithEmail(table)[n..PageEnd(WithEmail(table), n, num)]
    ensures |SelectMembers(table, prevKey, num)| == 0 <==> n == |WithEmail(table)|
  {
    RoundFetches(table, prevKey, num, n);
  }

  lemma RoundResumes(table: seq<MemberRow>, num: int, n: nat, last: MemberRow)
    requires Sorted(table) && KeyedByEmail(table) && num > 0 && n < |WithEmail(table)|
    requires last == WithEmail(table)[PageEnd(WithEmail(table), n, num) - 1]
    ensures HasEmail(last) && ResumesAt(WithEmail(table), CursorOf(last), NextStart(WithEmail(table), n, num))
  {
    NextRoundStarts(table, PageEnd(WithEmail(table), n, num) - 1);
  }

  lemma LastOfPage(rows: seq<MemberRow>, n: nat, num: int)
    requires num > 0 && n < |rows|
    ensures var page := rows[n..PageEnd(rows, n, num)]; page[|page| - 1] == rows[PageEnd(rows, n, num) - 1]
  {
  }

  // ---- when the loop ends ------------------------------------------------------------------------

  ghost predicate LoopEnds(table: seq<MemberRow>, num: int) {
    exists rounds: nat :: Ends(table, [], num, rounds)
  }

  lemma EndedWithin(table: seq<MemberRow>, num: int, rounds: nat)
    requires Ends(table, [], num, rounds)
    ensures LoopEnds(table, num)
  {
  }

  lemma {:induction false} EndsLonger(table: seq<MemberRow>, prevKey: Bytes, num: int, m: nat, n: nat)
    requires Ends(table, prevKey, num, m) && m <= n
    ensures Ends(table, prevKey, num, n)
    decreases m
  {
    var page := SelectMembers(table, prevKey, num);
    if page == [] {
    } else {
      EndsLonger(table, NextCursor(page), num, m - 1, n - 1);
    }
  }

  lemma FetchedRow(table: seq<MemberRow>, prevKey: Bytes, num: int, r: MemberRow)
    requires r in SelectMembers(table, prevKey, num)
    ensures r in WithEmail(table)
  {
    FilterThenCut(table, MEMBER_PREFIX + prevKey);
    BetweenContains(WithEmail(table), MEMBER_PREFIX + prevKey, None, r);
  }

  /** The rows that end a page, when the loop needs exactly so many rounds: as many, all different, since
      each of them is followed by fewer rounds than the one before. */
  lemma {:induction false} PageEnds(table: seq<MemberRow>, prevKey: Bytes, num: int, rounds: nat)
    returns (lasts: set<MemberRow>)
    requires Ends(table, prevKey, num, rounds) && (rounds > 0 ==> !Ends(table, prevKey, num, rounds - 1))
    ensures |lasts| == rounds && forall r :: r in lasts ==> r in WithEmail(table)
    ensures forall r :: r in lasts ==> Ends(table, MemberOf(r).GetEmail() + [0], num, rounds - 1)
    decreases rounds
  {
    var page := SelectMembers(table, prevKey, num);
    if page == [] {
      lasts := {};
    } else {
      var last := page[|page| - 1];
      MappedLast(MemberOf, page);
      assert NextCursor(page) == MemberOf(last).GetEmail() + [0];
      FetchedRow(table, prevKey, num, last);
      var others := PageEnds(table, NextCursor(page), num, rounds - 1);
      forall r | r in others ensures Ends(table, MemberOf(r).GetEmail() + [0], num, rounds - 1) {
        EndsLonger(table, MemberOf(r).GetEmail() + [0], num, rounds - 2, rounds - 1);
      }
      assert last !in others;
      lasts := others + {last};
    }
  }

  lemma {:induction false} NoMoreThan<T>(s: seq<T>, v: set<T>)
    requires forall x :: x in v ==> x in s
    ensures |v| <= |s|
  {
    if s == [] {
      assert v == {};
    } else {
      NoMoreThan(s[1..], v - {s[0]});
      assert |v| <= |v - {s[0]}| + 1 by {
        if s[0] in v { assert v == v - {s[0]} + {s[0]}; } else { assert v == v - {s[0]}; }
      }
    }
  }

  lemma {:induction false} LeastRounds(table: seq<MemberRow>, prevKey: Bytes, num: int, rounds: nat)
    returns (least: nat)
    requires Ends(table, prevKey, num, rounds)
    ensures Ends(table, prevKey, num, least) && (least > 0 ==> !Ends(table, prevKey, num, least - 1))
    decreases rounds
  {
    least := rounds;
    if rounds > 0 && Ends(table, prevKey, num, rounds - 1) {
      least := LeastRounds(table, prevKey, num, rounds - 1);
    }
  }

  /** Whatever the rows are kept under, and at any page size: the loop ends at all exactly when it ends within
      as many rounds as there are rows with an email. */
  lemma LoopEndsIff(table: seq<MemberRow>, num: int)
    ensures LoopEnds(table, num) <==> Ends(table, [], num, |WithEmail(table)|)
  {
    if LoopEnds(table, num) {
      var rounds: nat :| Ends(table, [], num, rounds);
      var least := LeastRounds(table, [], num, rounds);
      var lasts := PageEnds(table, [], num, least);
      NoMoreThan(WithEmail(table), lasts);
      EndsLonger(table, [], num, least, |WithEmail(table)|);
    } else if Ends(table, [], num, |WithEmail(table)|) {
      EndedWithin(table, num, |WithEmail(table)|);
    }
  }

  /** member_list: fetch a page, print it, go on after the last email and a NUL, until a page is empty.
      It prints what it fetches whenever it ends at all. */
  method PrintMembers(table: seq<MemberRow>, num: int) returns (printed: seq<Member>)
    requires LoopEnds(table, num)
    ensures Ends(table, [], num, |WithEmail(table)|)
    ensures printed == MembersOf(Fetched(table, [], num, |WithEmail(table)|))
  {
    LoopEndsIff(table, num);
    ghost var left: nat := |WithEmail(table)|;
    ghost var all := MembersOf(Fetched(table, [], num, left));
    var prevKey: Bytes := [];
    printed := [];
    while true
      invariant Ends(table, prevKey, num, left)
      invariant printed + MembersOf(Fetched(table, prevKey, num, left)) == all
      decreases left
    {
      var members, _ := EnumerateMembers(table, prevKey, num, false);
      RoundOfLoop(table, prevKey, num, left);
      if |members| == 0 { break; }
      printed, prevKey := PrintPage(members, printed);
      left := left - 1;
    }
  }

  lemma RoundOfLoop(table: seq<MemberRow>, prevKey: Bytes, num: int, left: nat)
    requires Ends(table, prevKey, num, left)
    ensures var page := SelectMembers(table, prevKey, num); var members := MembersOf(page);
            if members == [] then MembersOf(Fetched(table, prevKey, num, left)) == []
            else
              && left > 0 && Ends(table, CursorAfter(members), num, left - 1)
              && MembersOf(Fetched(table, prevKey, num, left))
                 == members + MembersOf(Fetched(table, CursorAfter(members), num, left - 1))
  {
    var page := SelectMembers(table, prevKey, num);
    if page != [] { MappedConcat(MemberOf, page, Fetched(table, NextCursor(page), num, left - 1)); }
  }

  /** Over rows kept under their email the loop ends, and prints from where it resumes. */
  lemma {:induction false} EndsAndPrints(table: seq<MemberRow>, prevKey: Bytes, num: int, n: nat, rounds: nat)
    requires Sorted(table) && KeyedByEmail(table) && num > 0
    requires ResumesAt(WithEmail(table), prevKey, n) && rounds >= |WithEmail(table)| - n
    ensures Ends(table, prevKey, num, rounds)
    ensures Fetched(table, prevKey, num, rounds) == Printed(WithEmail(table), n, num)
    decreases rounds, 1
  {
    var rows, page := WithEmail(table), SelectMembers(table, prevKey, num);
    RoundFetchesPage(table, num, prevKey, n);
    if n == |rows| {
    } else {
      LastOfPage(rows, n, num);
      EndsLater(table, num, n, rounds, page, page[|page| - 1]);
    }
  }

  lemma EndsLater(table: seq<MemberRow>, num: int, n: nat, rounds: nat, page: seq<MemberRow>, last: MemberRow)
    requires Sorted(table) && KeyedByEmail(table) && num > 0
    requires n < |WithEmail(table)| && rounds >= |WithEmail(table)| - n
    requires page != [] && last == page[|page| - 1] == WithEmail(table)[PageEnd(WithEmail(table), n, num) - 1]
    ensures Ends(table, NextCursor(page), num, rounds - 1)
    ensures Fetched(table, NextCursor(page), num, rounds - 1)
            == Printed(WithEmail(table), NextStart(WithEmail(table), n, num), num)
    decreases rounds, 0
  {
    RoundResumes(table, num, n, last);
    PageCursor(page, last);
    EndsAndPrints(table, CursorOf(last), num, NextStart(WithEmail(table), n, num), rounds - 1);
  }

  /** So from the start it ends within a round for each row with an email, having printed the pages its cursor cuts. */
  lemma LoopPrints(table: seq<MemberRow>, num: int)
    requires Sorted(table) && KeyedByEmail(table) && num > 0
    ensures LoopEnds(table, num) && Ends(table, [], num, |WithEmail(table)|)
    ensures Fetched(table, [], num, |WithEmail(table)|) == Printed(WithEmail(table), 0, num)
  {
    StartOfList(table);
    EndsAndPrints(table, [], num, 0, |WithEmail(table)|);
    EndedWithin(table, num, |WithEmail(table)|);
  }

  /** The inner loop: every member of the page, the cursor moved along with each. */
  method PrintPage(members: seq<Member>, before: seq<Member>) returns (printed: seq<Member>, prevKey: Bytes)
    requires members != []
    ensures printed == before + members
    ensures prevKey == CursorAfter(members)
  {
    printed, prevKey := before, [];
    var i := 0;
    while i < |members|
      invariant 0 <= i <= |members|
      invariant printed == before + members[..i]
      invariant i > 0 ==> prevKey == members[i - 1].GetEmail() + [0]
    {
      printed := printed + [members[i]];
      prevKey := members[i].GetEmail() + [0];
      i := i + 1;
    }
  }

  /** The loop starts before every row: the first cursor is empty. */
  lemma StartOfList(table: seq<MemberRow>)
    requires Sorted(table) && KeyedByEmail(table)
    ensures Between(WithEmail(table), MEMBER_PREFIX + [], None) == WithEmail(table)[0..]
  {
    var all := WithEmail(table);
    forall i | 0 <= i < |all| ensures Less(MEMBER_PREFIX + [], all[i].key) {
      WithEmailKeeps(table, all[i]);
      var j :| 0 <= j < |table| && table[j] == all[i];
      LessOfExtension(MEMBER_PREFIX, all[i].value[EmailColumn].text);
      assert MEMBER_PREFIX + [] == MEMBER_PREFIX;
    }
    AllAfter(all, MEMBER_PREFIX + []);
  }

  // ---- completeness ----------------------------------------------------------------------------

  ghost predicate NulTwins(rows: seq<MemberRow>, i: int) {
    0 <= i && i + 1 < |rows| && rows[i + 1].key == rows[i].key + [0]
  }

  ghost predicate NoTwins(rows: seq<MemberRow>) {
    forall i :: !NulTwins(rows, i)
  }

  /** A page of `num` rows ends at the first of two twins and leaves out the second. */
  ghost predicate SplitTwins(rows: seq<MemberRow>, num: int, j: nat) {
    j > 0 && j * num < |rows| && NulTwins(rows, j * num - 1)
  }

  lemma {:induction false} PrintedIsNoLonger(rows: seq<MemberRow>, start: nat, num: int)
    requires num > 0 && start <= |rows|
    ensures |Printed(rows, start, num)| <= |rows| - start
    decreases |rows| - start
  {
    if start == |rows| {
    } else {
      PrintedIsNoLonger(rows, NextRow(rows, PageEnd(rows, start, num)), num);
    }
  }

  lemma PageBoundary(rows: seq<MemberRow>, k: nat, num: int)
    requires num > 0 && k * num < |rows|
    ensures (k + 1) * num == k * num + num
    ensures PageEnd(rows, k * num, num) == if (k + 1) * num < |rows| then (k + 1) * num else |rows|
    ensures NextRow(rows, PageEnd(rows, k * num, num)) == PageEnd(rows, k * num, num) <==> !SplitTwins(rows, num, k + 1)
  {
  }

  lemma NoLaterPage(rows: seq<MemberRow>, k: nat, num: int, j: nat)
    requires num > 0 && (k + 1) * num >= |rows| && j > k
    ensures !SplitTwins(rows, num, j)
  {
    MulMonotone(k + 1, j, num);
  }

  lemma AppendCancels<T>(a: seq<T>, b: seq<T>, c: seq<T>)
    ensures a + b == a + c <==> b == c
  {
    assert (a + b)[|a|..] == b && (a + c)[|a|..] == c;
  }

  /** One page: it is missing a row, or what is left to print decides. */
  lemma PrintsPageIff(rows: seq<MemberRow>, start: nat, num: int)
    requires num > 0 && start < |rows|
    ensures var end := PageEnd(rows, start, num);
            if NextRow(rows, end) > end then Printed(rows, start, num) != rows[start..]
            else Printed(rows, start, num) == rows[start..] <==> Printed(rows, end, num) == rows[end..]
  {
    var end := PageEnd(rows, start, num);
    assert rows[start..] == rows[start..end] + rows[end..];
    AppendCancels(rows[start..end], Printed(rows, NextRow(rows, end), num), rows[end..]);
    PrintedIsNoLonger(rows, NextRow(rows, end), num);
  }

  /** From a full page's end on, everything is printed exactly when no later page splits two twins. */
  lemma {:induction false} PrintsRestIff(rows: seq<MemberRow>, k: nat, num: int)
    requires num > 0 && k * num < |rows|
    ensures Printed(rows, k * num, num) == rows[k * num..] <==> forall j: nat :: j > k ==> !SplitTwins(rows, num, j)
    decreases |rows| - k * num
  {
    PageBoundary(rows, k, num);
    PrintsPageIff(rows, k * num, num);
    if SplitTwins(rows, num, k + 1) {
    } else if (k + 1) * num >= |rows| {
      forall j: nat | j > k ensures !SplitTwins(rows, num, j) { NoLaterPage(rows, k, num, j); }
    } else {
      PrintsRestIff(rows, k + 1, num);
    }
  }

  /** At any page size the loop prints every member with an email exactly once and in key order, exactly when
      no page ends at the first of two keys that differ by a trailing NUL. */
  lemma PrintsAllIff(rows: seq<MemberRow>, num: int)
    requires num > 0
    ensures Printed(rows, 0, num) == rows <==> forall j: nat :: !SplitTwins(rows, num, j)
  {
    if rows != [] {
      assert 0 * num == 0 && rows[0..] == rows;
      PrintsRestIff(rows, 0, num);
    }
  }

  ghost predicate PrintsAll(rows: seq<MemberRow>, num: int) {
    num > 0 ==> Printed(rows, 0, num) == rows
  }

  /** So at every page size just when there are no such keys at all. */
  lemma PrintsAllIffNoTwins(rows: seq<MemberRow>)
    ensures (forall num :: PrintsAll(rows, num)) <==> NoTwins(rows)
  {
    if i :| NulTwins(rows, i) {
      PrintsAllIff(rows, i + 1);
      assert SplitTwins(rows, i + 1, 1);
      assert !PrintsAll(rows, i + 1);
    } else {
      forall num ensures PrintsAll(rows, num) {
        if num > 0 { PrintsAllIff(rows, num); }
      }
    }
  }

  lemma TwinEndsInNul(table: seq<MemberRow>, i: nat)
    requires KeyedByEmail(table) && NulTwins(WithEmail(table), i)
    ensures exists r :: r in table && HasEmail(r) && 0 in r.value[EmailColumn].text
  {
    var rows := WithEmail(table);
    WithEmailKeeps(table, rows[i]);
    WithEmailKeeps(table, rows[i + 1]);
    var e := rows[i + 1].value[EmailColumn].text;
    assert MEMBER_PREFIX + e == MEMBER_PREFIX + rows[i].value[EmailColumn].text + [0];
    assert e == (MEMBER_PREFIX + e)[|MEMBER_PREFIX|..];
    assert e[|e| - 1] == 0;
  }

  /** Addresses the form accepts hold no NUL, so then there are no twins, and everyone is printed. */
  lemma PrintsEveryone(table: seq<MemberRow>, num: int)
    requires Sorted(table) && KeyedByEmail(table) && num > 0
    requires forall i :: 0 <= i < |table| && HasEmail(table[i]) ==> 0 !in table[i].value[EmailColumn].text
    ensures Printed(WithEmail(table), 0, num) == WithEmail(table)
  {
    var rows := WithEmail(table);
    forall i ensures !NulTwins(rows, i) {
      if NulTwins(rows, i) { TwinEndsInNul(table, i); }
    }
    PrintsAllIff(rows, num);
  }

  /** Rows kept under anything but their email are another matter: for a table of one row the loop ends
      exactly when the row's key does not come after its email and a NUL; otherwise it prints the row forever. */
  lemma StrayRowEndsIff(r: MemberRow, num: int)
    requires HasEmail(r) && Less(MEMBER_PREFIX, r.key)
    ensures LoopEnds([r], num) <==> !Less(MEMBER_PREFIX + CursorOf(r), r.key)
  {
    PageCursor([r], r);
    OneRow(r, [], num);
    OneRow(r, CursorOf(r), num);
    assert MEMBER_PREFIX + [] == MEMBER_PREFIX;
    if Less(MEMBER_PREFIX + CursorOf(r), r.key) {
      forall rounds: nat ensures !Ends([r], [], num, rounds) { NeverEnds(r, [], num, rounds); }
    } else {
      var once: nat := 1;
      assert Ends([r], CursorOf(r), num, once - 1);
      EndedWithin([r], num, once);
    }
  }

  lemma OneRow(r: MemberRow, prevKey: Bytes, num: int)
    requires HasEmail(r)
    ensures SelectMembers([r], prevKey, num) == if Less(MEMBER_PREFIX + prevKey, r.key) then [r] else []
  {
    assert [r][1..] == [] && Between([r][1..], MEMBER_PREFIX + prevKey, None) == [];
    if Less(MEMBER_PREFIX + prevKey, r.key) {
      assert Between([r], MEMBER_PREFIX + prevKey, None) == [r] && WithEmail([r]) == [r];
    }
  }

  lemma {:induction false} NeverEnds(r: MemberRow, prevKey: Bytes, num: int, rounds: nat)
    requires HasEmail(r) && Less(MEMBER_PREFIX + prevKey, r.key) && Less(MEMBER_PREFIX + CursorOf(r), r.key)
    ensures !Ends([r], prevKey, num, rounds)
    decreases rounds
  {
    OneRow(r, prevKey, num);
    PageCursor([r], r);
    if rounds == 0 {
    } else {
      NeverEnds(r, CursorOf(r), num, rounds - 1);
    }
  }
}
