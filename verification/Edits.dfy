/** The four setters, one call after another, against a plain map of fields. */
module Edits {
  import opened ByteStrings
  import opened Records
  import opened Store

  /** The member as the blob of a row tells it: what a detail lookup returns. */
  function Detail(parse: Parser, s: Store, email: Bytes): Option<Member> {
    if Loc(Members, email) !in s.rows then None
    else
      match Unmarshal(parse, s.rows[Loc(Members, email)].pbData)
      case None => None
      case Some(a) => a.memberData
  }

  function PerformEdit(parse: Parser, s: Store, email: Bytes, e: Edit): Store {
    match PrepareEdit(parse, s, email, e)
    case Err(_) => s
    case Ok(b) => Apply(s, b)
  }

  function PerformEdits(parse: Parser, s: Store, email: Bytes, edits: seq<Edit>): Store {
    if edits == [] then s
    else PerformEdit(parse, PerformEdits(parse, s, email, edits[..|edits| - 1]), email, edits[|edits| - 1])
  }

  // ---- the reference: a map of fields -----------------------------------------------------------

  /** The fields an edit names, accepted or not; an unknown field names none. */
  function Touched(e: Edit): set<Column> {
    match e
    case FeeEdit(_, _) => {FeeColumn, FeeYearlyColumn}
    case LongEdit(column, _) => if column == Some(PaymentsColumn) then {PaymentsColumn} else {}
    case BoolEdit(column, _) => if column == Some(HasKeyColumn) then {HasKeyColumn} else {}
    case TextEdit(column, _) => if IsTextColumn(column) then {column.value} else {}
  }

  function Wanted(e: Edit, c: Column): CqlValue {
    match e
    case FeeEdit(fee, yearly) => if c == FeeColumn then BigintValue(ToInt64(fee)) else BooleanValue(yearly)
    case LongEdit(_, value) => BigintValue(ToInt64(value))
    case BoolEdit(_, value) => BooleanValue(value)
    case TextEdit(_, value) => TextValue(value)
  }

  /** The one rule: a user name that is set and not empty stays. */
  predicate Refused(fields: Columns, e: Edit) {
    UsernameColumn in Touched(e) && UsernameColumn in fields && fields[UsernameColumn] != TextValue([])
  }

  function SetFields(fields: Columns, e: Edit): Columns {
    if Refused(fields, e) then fields
    else fields + map c | c in Touched(e) :: Wanted(e, c)
  }

  function SetAll(fields: Columns, edits: seq<Edit>): Columns {
    if edits == [] then fields else SetFields(SetAll(fields, edits[..|edits| - 1]), edits[|edits| - 1])
  }

  // ---- refinement -------------------------------------------------------------------------------

  lemma SetTextSetsOneField(m: Member, column: Column, text: Bytes, c: Column)
    requires IsTextColumn(Some(column))
    ensures Field(SetText(m, column, text), c) == if c == column then Some(TextValue(text)) else Field(m, c)
  {
  }

  /** What an accepted edit does to each field, and to nothing but the member. */
  lemma EditSetsFields(a: Agreement, e: Edit, c: Column)
    requires EditAgreement(a, e).Ok?
    ensures var (x, columns) := EditAgreement(a, e).value;
            && a.memberData.Some? && x.memberData.Some?
            && Field(x.memberData.value, c) == (if c in columns then Some(columns[c]) else Field(a.memberData.value, c))
            && x.agreementPdf == a.agreementPdf && x.metadata == a.metadata
            && (a.Complete() ==> x.Complete())
            && columns.Keys == Touched(e) && (c in columns ==> columns[c] == Wanted(e, c))
  {
    if e.TextEdit? { SetTextSetsOneField(a.memberData.value, e.column.value, e.text, c); }
  }

  lemma EditIsFieldUpdate(a: Agreement, e: Edit)
    requires EditAgreement(a, e).Ok?
    ensures var (x, columns) := EditAgreement(a, e).value;
            && a.memberData.Some? && x.memberData.Some?
            && FieldMap(x.memberData.value) == FieldMap(a.memberData.value) + columns
            && columns == (map c | c in Touched(e) :: Wanted(e, c))
  {
    var (x, columns) := EditAgreement(a, e).value;
    EditSetsFields(a, e, NameColumn);
    forall c | c in columns ensures columns[c] == Wanted(e, c) { EditSetsFields(a, e, c); }
    forall c: Column
      ensures Field(x.memberData.value, c) == if c in columns then Some(columns[c]) else Field(a.memberData.value, c)
    {
      EditSetsFields(a, e, c);
    }
    FieldMapUpdate(a.memberData.value, x.memberData.value, columns);
  }

  lemma FieldMapUpdate(m: Member, x: Member, columns: Columns)
    requires forall c :: Field(x, c) == if c in columns then Some(columns[c]) else Field(m, c)
    ensures FieldMap(x) == FieldMap(m) + columns
  {
  }

  lemma TouchesNothingOnlyIfUnknown(e: Edit)
    ensures Touched(e) == {} <==>
              match e {
                case FeeEdit(_, _) => false
                case LongEdit(column, _) => column != Some(PaymentsColumn)
                case BoolEdit(column, _) => column != Some(HasKeyColumn)
                case TextEdit(column, _) => !IsTextColumn(column)
              }
  {
    assert e.FeeEdit? ==> FeeColumn in Touched(e);
    assert e.LongEdit? && e.column == Some(PaymentsColumn) ==> PaymentsColumn in Touched(e);
    assert e.BoolEdit? && e.column == Some(HasKeyColumn) ==> HasKeyColumn in Touched(e);
    assert e.TextEdit? && IsTextColumn(e.column) ==> e.column.value in Touched(e);
  }

  /** An edit of a known field is refused exactly when the map refuses it. */
  lemma AcceptedIffMapAccepts(a: Agreement, e: Edit)
    requires a.memberData.Some?
    ensures EditAgreement(a, e).Ok? <==> Touched(e) != {} && !Refused(FieldMap(a.memberData.value), e)
  {
    var m := a.memberData.value;
    assert UsernameColumn in FieldMap(m) <==> m.username.Some?;
    if m.username.Some? { assert FieldMap(m)[UsernameColumn] == TextValue(m.username.value); }
    TouchesNothingOnlyIfUnknown(e);
  }

  /** One setter call on a member that can be decoded is one update of the field map. */
  lemma EditRefinesMap(parse: Parser, s: Store, email: Bytes, e: Edit)
    requires Detail(parse, s, email).Some?
    ensures var t := PerformEdit(parse, s, email, e);
            && Detail(parse, t, email).Some?
            && FieldMap(Detail(parse, t, email).value) == SetFields(FieldMap(Detail(parse, s, email).value), e)
  {
    var a := Unmarshal(parse, s.rows[Loc(Members, email)].pbData).value;
    AcceptedIffMapAccepts(a, e);
    if EditAgreement(a, e).Ok? {
      EditIsFieldUpdate(a, e);
      EditSetsFields(a, e, NameColumn);
    } else {
      NothingSet(FieldMap(a.memberData.value), e);
    }
  }

  lemma NothingSet(fields: Columns, e: Edit)
    requires Touched(e) == {} || Refused(fields, e)
    ensures SetFields(fields, e) == fields
  {
    if Touched(e) == {} { assert (map c | c in Touched(e) :: Wanted(e, c)) == map[]; }
  }

  /** Any sequential run of setter calls: the record is the fold of the accepted edits over its
      fields, and the member is read back from that map alone. */
  lemma {:induction false} EditsRefineMap(parse: Parser, s: Store, email: Bytes, edits: seq<Edit>)
    requires Detail(parse, s, email).Some?
    ensures Detail(parse, PerformEdits(parse, s, email, edits), email).Some?
    ensures Detail(parse, PerformEdits(parse, s, email, edits), email).value
            == MemberFromRow(SetAll(FieldMap(Detail(parse, s, email).value), edits))
    ensures FieldMap(Detail(parse, PerformEdits(parse, s, email, edits), email).value)
            == SetAll(FieldMap(Detail(parse, s, email).value), edits)
  {
    if edits == [] {
      MemberFromFieldMap(Detail(parse, s, email).value);
    } else {
      var n := |edits| - 1;
      var t := PerformEdits(parse, s, email, edits[..n]);
      EditsRefineMap(parse, s, email, edits[..n]);
      EditRefinesMap(parse, t, email, edits[n]);
      MemberFromFieldMap(Detail(parse, PerformEdit(parse, t, email, edits[n]), email).value);
    }
  }

  lemma EditNeedsAMember(parse: Parser, s: Store, email: Bytes, e: Edit)
    requires Detail(parse, s, email).None?
    ensures PerformEdit(parse, s, email, e) == s
  {
  }

  /** Where there is no decodable member, no edit does anything. */
  lemma {:induction false} EditsNeedAMember(parse: Parser, s: Store, email: Bytes, edits: seq<Edit>)
    requires Detail(parse, s, email).None?
    ensures PerformEdits(parse, s, email, edits) == s
  {
    if edits == [] {
    } else {
      EditsNeedAMember(parse, s, email, edits[..|edits| - 1]);
      EditNeedsAMember(parse, s, email, edits[|edits| - 1]);
    }
  }

  /** An unknown field changes nothing, in the store as a whole. */
  lemma UnknownFieldsChangeNothing(parse: Parser, s: Store, email: Bytes, e: Edit)
    requires Touched(e) == {}
    ensures PerformEdit(parse, s, email, e) == s
    ensures Detail(parse, s, email).Some? ==> PrepareEdit(parse, s, email, e) == Err(NotFound)
  {
    TouchesNothingOnlyIfUnknown(e);
  }

  /** A user name, once set and not empty, survives every run of setter calls. */
  lemma {:induction false} UserNameIsFinal(parse: Parser, s: Store, email: Bytes, edits: seq<Edit>)
    requires Detail(parse, s, email).Some? && Detail(parse, s, email).value.GetUsername() != []
    ensures Detail(parse, PerformEdits(parse, s, email, edits), email).Some?
    ensures Detail(parse, PerformEdits(parse, s, email, edits), email).value.username
            == Detail(parse, s, email).value.username
  {
    if edits == [] {
    } else {
      var n := |edits| - 1;
      var t := PerformEdits(parse, s, email, edits[..n]);
      UserNameIsFinal(parse, s, email, edits[..n]);
      var m := Detail(parse, t, email).value;
      EditRefinesMap(parse, t, email, edits[n]);
      var x := Detail(parse, PerformEdit(parse, t, email, edits[n]), email).value;
      assert UsernameColumn in FieldMap(m) && FieldMap(m)[UsernameColumn] == TextValue(m.username.value);
      assert UsernameColumn in FieldMap(x) && FieldMap(x)[UsernameColumn] == TextValue(m.username.value);
    }
  }

  lemma FieldMapIsInjective(m: Member, n: Member)
    requires FieldMap(m) == FieldMap(n)
    ensures m == n
  {
    MemberFromFieldMap(m);
    MemberFromFieldMap(n);
  }

  lemma SetFieldsCommute(fields: Columns, e: Edit, f: Edit)
    requires Touched(e) !! Touched(f)
    ensures SetFields(SetFields(fields, e), f) == SetFields(SetFields(fields, f), e)
    ensures Refused(SetFields(fields, e), f) == Refused(fields, f)
  {
  }

  /** The columns an edit changes on a member with these fields: none if it is refused or unknown. */
  function Changes(fields: Columns, e: Edit): Columns {
    if Refused(fields, e) then map[] else map c | c in Touched(e) :: Wanted(e, c)
  }

  /** The store after accepted edits: member `x` in the blob and its copy, `changes` on top of the columns. */
  function Rewritten(parse: Parser, s: Store, email: Bytes, x: Member, changes: Columns): Store
    requires Detail(parse, s, email).Some?
  {
    var row := s.rows[Loc(Members, email)];
    var blob := AgreementBlob(Unmarshal(parse, row.pbData).value.(memberData := Some(x)));
    if changes == map[] then s
    else Store(s.rows[Loc(Members, email) := Row(row.person, blob, row.columns + changes)], s.agreements[email := blob])
  }

  lemma EditedStore(parse: Parser, s: Store, email: Bytes, e: Edit)
    requires Detail(parse, s, email).Some?
    ensures var t := PerformEdit(parse, s, email, e);
            && Detail(parse, t, email).Some?
            && t == Rewritten(parse, s, email, Detail(parse, t, email).value,
                              Changes(FieldMap(Detail(parse, s, email).value), e))
            && Detail(parse, t, email).value.Complete()
  {
    var a := Unmarshal(parse, s.rows[Loc(Members, email)].pbData).value;
    AcceptedIffMapAccepts(a, e);
    SomethingChangesIff(FieldMap(a.memberData.value), e);
    if EditAgreement(a, e).Ok? { AcceptedEditIsStored(parse, s, email, e); }
  }

  lemma SomethingChangesIff(fields: Columns, e: Edit)
    ensures Changes(fields, e) != map[] <==> Touched(e) != {} && !Refused(fields, e)
  {
    if Touched(e) != {} && !Refused(fields, e) {
      var c :| c in Touched(e);
      assert c in Changes(fields, e);
    }
  }

  lemma AcceptedEditIsStored(parse: Parser, s: Store, email: Bytes, e: Edit)
    requires Detail(parse, s, email).Some?
    requires EditAgreement(Unmarshal(parse, s.rows[Loc(Members, email)].pbData).value, e).Ok?
    ensures var t := PerformEdit(parse, s, email, e); var row := s.rows[Loc(Members, email)];
            var x := EditAgreement(Unmarshal(parse, row.pbData).value, e).value.0;
            && x.memberData.Some? && x.memberData.value.Complete()
            && x == Unmarshal(parse, row.pbData).value.(memberData := x.memberData)
            && t == Store(s.rows[Loc(Members, email) :=
                                   Row(row.person, AgreementBlob(x), row.columns + EditAgreement(
                                         Unmarshal(parse, row.pbData).value, e).value.1)],
                          s.agreements[email := AgreementBlob(x)])
            && EditAgreement(Unmarshal(parse, row.pbData).value, e).value.1 == map c | c in Touched(e) :: Wanted(e, c)
  {
    var a := Unmarshal(parse, s.rows[Loc(Members, email)].pbData).value;
    EditIsFieldUpdate(a, e);
    EditSetsFields(a, e, NameColumn);
  }

  lemma RewrittenTwice(parse: Parser, s: Store, email: Bytes, x: Member, y: Member, c: Columns, d: Columns)
    requires Detail(parse, s, email).Some? && x.Complete() && y.Complete()
    requires Detail(parse, s, email).value == x || c != map[]
    requires y == x || d != map[]
    ensures var t := Rewritten(parse, s, email, x, c);
            && Detail(parse, t, email) == Some(x)
            && Rewritten(parse, t, email, y, d) == Rewritten(parse, s, email, y, c + d)
  {
    var t := Rewritten(parse, s, email, x, c);
    if c == map[] {
      assert c + d == d;
    } else {
      assert forall k :: k in c ==> k in c + d;
      if d == map[] { assert c + d == c; }
      var row := s.rows[Loc(Members, email)];
      assert row.columns + c + d == row.columns + (c + d);
    }
  }

  /** After any run, edits of different fields commute: rows, columns, blob and agreement copy come out the same. */
  lemma EditsCommute(parse: Parser, s: Store, email: Bytes, edits: seq<Edit>, e: Edit, f: Edit)
    requires Touched(e) !! Touched(f)
    ensures PerformEdits(parse, s, email, edits + [e, f]) == PerformEdits(parse, s, email, edits + [f, e])
  {
    var t := PerformEdits(parse, s, email, edits);
    if Detail(parse, t, email).None? {
      EditNeedsAMember(parse, t, email, e);
      EditNeedsAMember(parse, t, email, f);
      LastTwo(parse, s, email, edits, e, f);
      LastTwo(parse, s, email, edits, f, e);
    } else {
      BothOrders(FieldMap(Detail(parse, t, email).value), e, f);
      EditedTwice(parse, s, email, edits, e, f);
      EditedTwice(parse, s, email, edits, f, e);
    }
  }

  function MemberAfter(fields: Columns, e: Edit, f: Edit): Member {
    MemberFromRow(SetFields(SetFields(fields, e), f))
  }

  function ChangesOfBoth(fields: Columns, e: Edit, f: Edit): Columns {
    Changes(fields, e) + Changes(fields, f)
  }

  lemma BothOrders(fields: Columns, e: Edit, f: Edit)
    requires Touched(e) !! Touched(f)
    ensures MemberAfter(fields, e, f) == MemberAfter(fields, f, e)
    ensures ChangesOfBoth(fields, e, f) == ChangesOfBoth(fields, f, e)
  {
    SetFieldsCommute(fields, e, f);
    ChangesTouched(fields, e);
    ChangesTouched(fields, f);
    ApartCommute(Changes(fields, e), Changes(fields, f));
  }

  lemma ChangesTouched(fields: Columns, e: Edit)
    ensures Changes(fields, e).Keys <= Touched(e)
  {
  }

  lemma ApartCommute(c: Columns, d: Columns)
    requires c.Keys !! d.Keys
    ensures c + d == d + c
  {
  }

  lemma LastTwo(parse: Parser, s: Store, email: Bytes, edits: seq<Edit>, e: Edit, f: Edit)
    ensures PerformEdits(parse, s, email, edits + [e, f])
            == PerformEdit(parse, PerformEdit(parse, PerformEdits(parse, s, email, edits), email, e), email, f)
  {
    assert (edits + [e, f])[..|edits| + 1] == edits + [e] && (edits + [e])[..|edits|] == edits;
  }

  lemma EditedTwice(parse: Parser, s: Store, email: Bytes, edits: seq<Edit>, e: Edit, f: Edit)
    requires Detail(parse, PerformEdits(parse, s, email, edits), email).Some? && Touched(e) !! Touched(f)
    ensures var t := PerformEdits(parse, s, email, edits); var fields := FieldMap(Detail(parse, t, email).value);
            PerformEdits(parse, s, email, edits + [e, f])
            == Rewritten(parse, t, email, MemberAfter(fields, e, f), ChangesOfBoth(fields, e, f))
  {
    LastTwo(parse, s, email, edits, e, f);
    var x := EditedTwiceFrom(parse, PerformEdits(parse, s, email, edits), email, e, f);
    MemberFromFieldMap(x);
  }

  lemma EditedTwiceFrom(parse: Parser, s: Store, email: Bytes, e: Edit, f: Edit) returns (x: Member)
    requires Detail(parse, s, email).Some? && Touched(e) !! Touched(f)
    ensures var fields := FieldMap(Detail(parse, s, email).value);
            && FieldMap(x) == SetFields(SetFields(fields, e), f)
            && PerformEdit(parse, PerformEdit(parse, s, email, e), email, f)
               == Rewritten(parse, s, email, x, Changes(fields, e) + Changes(fields, f))
  {
    var m := Detail(parse, s, email).value;
    var fields := FieldMap(m);
    var t := PerformEdit(parse, s, email, e);
    EditRefinesMap(parse, s, email, e);
    EditRefinesMap(parse, t, email, f);
    EditedStore(parse, s, email, e);
    EditedStore(parse, t, email, f);
    var y := Detail(parse, t, email).value;
    x := Detail(parse, PerformEdit(parse, t, email, f), email).value;
    SetFieldsCommute(fields, e, f);
    UnchangedMember(fields, e, m, y);
    UnchangedMember(FieldMap(y), f, y, x);
    RewrittenTwice(parse, s, email, y, x, Changes(fields, e), Changes(fields, f));
  }

  lemma UnchangedMember(fields: Columns, e: Edit, m: Member, n: Member)
    requires fields == FieldMap(m) && FieldMap(n) == SetFields(fields, e)
    ensures m == n || Changes(fields, e) != map[]
  {
    if Changes(fields, e) == map[] {
      assert !Refused(fields, e) ==> forall c :: c in Touched(e) ==> c in Changes(fields, e);
      assert FieldMap(n) == fields;
      FieldMapIsInjective(m, n);
    }
  }

  // ---- columns and blob -------------------------------------------------------------------------

  /** The field of the member a blob decodes to, if there is one. */
  function BlobField(parse: Parser, pbData: Blob, c: Column): Option<CqlValue> {
    match Unmarshal(parse, pbData)
    case None => None
    case Some(a) => if a.memberData.Some? then Field(a.memberData.value, c) else None
  }

  /** Every non-null column of a row has the value of that field in the decoded blob. */
  ghost predicate ColumnsAgree(parse: Parser, row: Row) {
    forall c :: c in row.columns ==> BlobField(parse, row.pbData, c) == Some(row.columns[c])
  }

  lemma EditedFields(parse: Parser, s: Store, email: Bytes, e: Edit, c: Column)
    requires PrepareEdit(parse, s, email, e).Ok?
    ensures var b := PrepareEdit(parse, s, email, e).value;
            && Detail(parse, s, email).Some? && b.columns.Keys == Touched(e)
            && BlobField(parse, b.pbData, c)
               == if c in b.columns then Some(b.columns[c]) else Field(Detail(parse, s, email).value, c)
  {
    EditSetsFields(Unmarshal(parse, s.rows[Loc(Members, email)].pbData).value, e, c);
  }

  /** Edits, run one after another, keep columns and blob in step. */
  lemma EditKeepsColumns(parse: Parser, s: Store, email: Bytes, e: Edit)
    requires Loc(Members, email) in s.rows && ColumnsAgree(parse, s.rows[Loc(Members, email)])
    ensures Loc(Members, email) in PerformEdit(parse, s, email, e).rows
    ensures ColumnsAgree(parse, PerformEdit(parse, s, email, e).rows[Loc(Members, email)])
  {
    match PrepareEdit(parse, s, email, e)
    case Err(_) =>
    case Ok(b) =>
      var before, after := s.rows[Loc(Members, email)], Apply(s, b).rows[Loc(Members, email)];
      forall c | c in after.columns ensures BlobField(parse, after.pbData, c) == Some(after.columns[c]) {
        EditedFields(parse, s, email, e, c);
        if c !in b.columns { assert BlobField(parse, before.pbData, c) == Some(before.columns[c]); }
      }
  }
}
