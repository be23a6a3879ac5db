/** The Cassandra client: each operation in place on the tables, against the batch its read step prepares. */
module Cassandra {
  import opened ByteStrings
  import opened Records
  import opened Store
  import opened Edits

  /** Where the database may let an operation down. */
  datatype Fault = NoFault | ReadFails | WriteFails

  /** An operation reports its read step's error, or a failed batch, and changes nothing;
      otherwise its batch has been applied. */
  predicate Executed(prepared: Result<Batch>, fault: Fault, before: Store, after: Store, r: Result<()>) {
    match prepared
    case Err(error) => r == Err(error) && after == before
    case Ok(b) =>
      if fault == WriteFails then r == Err(Internal) && after == before
      else r == Ok(()) && after == Apply(before, b)
  }

  function AfterRead(fault: Fault, prepared: Result<Batch>): Result<Batch> {
    if fault == ReadFails then Err(Internal) else prepared
  }

  // ---- what a setter leaves, field by field ------------------------------------------------------

  /** The member row of `id` now holds member `m` in its blob, with these columns set and the others as they
      were; the agreement copy follows, and nothing else in the store has changed. */
  ghost predicate NowHolds(parse: Parser, s: Store, t: Store, id: Bytes, m: Member, changes: Columns) {
    var l := Loc(Members, id);
    && l in s.rows && l in t.rows && t.rows.Keys == s.rows.Keys
    && (forall k :: k in s.rows && k != l ==> t.rows[k] == s.rows[k])
    && t.rows[l].person == s.rows[l].person && t.rows[l].columns == s.rows[l].columns + changes
    && Unmarshal(parse, s.rows[l].pbData).Some?
    && Unmarshal(parse, t.rows[l].pbData) == Some(Unmarshal(parse, s.rows[l].pbData).value.(memberData := Some(m)))
    && t.agreements == s.agreements[id := t.rows[l].pbData]
  }

  /** The fields SetTextValue knows, by the names callers use. */
  const TEXT_FIELDS: set<string> := {"name", "street", "city", "zipcode", "country", "phone", "username"}

  /** The member with the one field of that name set. */
  ghost predicate TextFieldSet(parse: Parser, s: Store, t: Store, id: Bytes, field: string, value: Bytes) {
    && Detail(parse, s, id).Some? && field in TEXT_FIELDS
    && var m := Detail(parse, s, id).value; var v := TextValue(value);
       && (field == "name" ==> NowHolds(parse, s, t, id, m.(name := Some(value)), map[NameColumn := v]))
       && (field == "street" ==> NowHolds(parse, s, t, id, m.(street := Some(value)), map[StreetColumn := v]))
       && (field == "city" ==> NowHolds(parse, s, t, id, m.(city := Some(value)), map[CityColumn := v]))
       && (field == "zipcode" ==> NowHolds(parse, s, t, id, m.(zipcode := Some(value)), map[ZipcodeColumn := v]))
       && (field == "country" ==> NowHolds(parse, s, t, id, m.(country := Some(value)), map[CountryColumn := v]))
       && (field == "phone" ==> NowHolds(parse, s, t, id, m.(phone := Some(value)), map[PhoneColumn := v]))
       && (field == "username" ==>
             m.GetUsername() == [] && NowHolds(parse, s, t, id, m.(username := Some(value)), map[UsernameColumn := v]))
  }

  lemma TextEditHolds(parse: Parser, s: Store, id: Bytes, c: Column, value: Bytes)
    requires IsTextColumn(Some(c))
    ensures match PrepareEdit(parse, s, id, TextEdit(Some(c), value)) {
              case Ok(b) =>
                && Detail(parse, s, id).Some?
                && (c == UsernameColumn ==> Detail(parse, s, id).value.GetUsername() == [])
                && NowHolds(parse, s, Apply(s, b), id, SetText(Detail(parse, s, id).value, c, value),
                            map[c := TextValue(value)])
              case Err(e) =>
                Detail(parse, s, id).Some? ==>
                  c == UsernameColumn && Detail(parse, s, id).value.GetUsername() != [] && e == Internal
            }
  {
    if Detail(parse, s, id).Some? {
      assert Detail(parse, s, id).value.Complete();
      assert SetText(Detail(parse, s, id).value, c, value).Complete();
    }
  }

  lemma FieldsByName(field: string)
    ensures IsTextColumn(ColumnNamed(field)) <==> field in TEXT_FIELDS
    ensures field == "name" ==> ColumnNamed(field) == Some(NameColumn)
    ensures field == "street" ==> ColumnNamed(field) == Some(StreetColumn)
    ensures field == "city" ==> ColumnNamed(field) == Some(CityColumn)
    ensures field == "zipcode" ==> ColumnNamed(field) == Some(ZipcodeColumn)
    ensures field == "country" ==> ColumnNamed(field) == Some(CountryColumn)
    ensures field == "phone" ==> ColumnNamed(field) == Some(PhoneColumn)
    ensures field == "username" <==> ColumnNamed(field) == Some(UsernameColumn)
  {
  }

  /** A text field, by its name: the one field of that name is set, unless it is a user name that is set already. */
  lemma TextFieldIsSet(parse: Parser, s: Store, id: Bytes, field: string, value: Bytes)
    ensures match PrepareEdit(parse, s, id, TextEdit(ColumnNamed(field), value)) {
              case Ok(b) => TextFieldSet(parse, s, Apply(s, b), id, field, value)
              case Err(e) =>
                Detail(parse, s, id).Some? ==>
                  if field !in TEXT_FIELDS then e == NotFound
                  else field == "username" && Detail(parse, s, id).value.GetUsername() != [] && e == Internal
            }
  {
    FieldsByName(field);
    if field in TEXT_FIELDS {
      var c := ColumnNamed(field).value;
      TextEditHolds(parse, s, id, c, value);
      match PrepareEdit(parse, s, id, TextEdit(Some(c), value))
      case Ok(b) => NamedFieldIsSet(parse, s, Apply(s, b), id, field, c, value);
      case Err(_) =>
    }
  }

  lemma NamedFieldIsSet(parse: Parser, s: Store, t: Store, id: Bytes, field: string, c: Column, value: Bytes)
    requires field in TEXT_FIELDS && ColumnNamed(field) == Some(c) && Detail(parse, s, id).Some?
    requires c == UsernameColumn ==> Detail(parse, s, id).value.GetUsername() == []
    requires NowHolds(parse, s, t, id, SetText(Detail(parse, s, id).value, c, value), map[c := TextValue(value)])
    ensures TextFieldSet(parse, s, t, id, field, value)
  {
    FieldsByName(field);
  }

  lemma FeeIsSet(parse: Parser, s: Store, id: Bytes, fee: uint64, yearly: bool)
    ensures match PrepareEdit(parse, s, id, FeeEdit(fee, yearly)) {
              case Ok(b) =>
                && Detail(parse, s, id).Some?
                && NowHolds(parse, s, Apply(s, b), id,
                            Detail(parse, s, id).value.(fee := Some(fee), feeYearly := Some(yearly)),
                            map[FeeColumn := BigintValue(ToInt64(fee)), FeeYearlyColumn := BooleanValue(yearly)])
              case Err(_) => Detail(parse, s, id).None?
            }
  {
    if Detail(parse, s, id).Some? { assert Detail(parse, s, id).value.Complete(); }
  }

  lemma LongFieldIsSet(parse: Parser, s: Store, id: Bytes, field: string, value: uint64)
    ensures match PrepareEdit(parse, s, id, LongEdit(ColumnNamed(field), value)) {
              case Ok(b) =>
                && Detail(parse, s, id).Some? && field == "payments_caught_up_to"
                && NowHolds(parse, s, Apply(s, b), id, Detail(parse, s, id).value.(paymentsCaughtUpTo := Some(value)),
                            map[PaymentsColumn := BigintValue(ToInt64(value))])
              case Err(e) => Detail(parse, s, id).Some? ==> field != "payments_caught_up_to" && e == NotFound
            }
  {
    if Detail(parse, s, id).Some? { assert Detail(parse, s, id).value.Complete(); }
  }

  lemma BoolFieldIsSet(parse: Parser, s: Store, id: Bytes, field: string, value: bool)
    ensures match PrepareEdit(parse, s, id, BoolEdit(ColumnNamed(field), value)) {
              case Ok(b) =>
                && Detail(parse, s, id).Some? && field == "has_key"
                && NowHolds(parse, s, Apply(s, b), id, Detail(parse, s, id).value.(hasKey := Some(value)),
                            map[HasKeyColumn := BooleanValue(value)])
              case Err(e) => Detail(parse, s, id).Some? ==> field != "has_key" && e == NotFound
            }
  {
    if Detail(parse, s, id).Some? { assert Detail(parse, s, id).value.Complete(); }
  }

  /** The application of `id` now holds this scan, in its blob and its own column, and is otherwise as it was. */
  ghost predicate NowHasScan(parse: Parser, s: Store, t: Store, id: Bytes, pdf: Bytes) {
    var l := Loc(Application, id);
    && l in s.rows && l in t.rows && t.rows.Keys == s.rows.Keys && t.agreements == s.agreements
    && (forall k :: k in s.rows && k != l ==> t.rows[k] == s.rows[k])
    && t.rows[l].person == s.rows[l].person
    && t.rows[l].columns == s.rows[l].columns[ApplicationPdfColumn := BlobValue(pdf)]
    && Unmarshal(parse, s.rows[l].pbData).Some?
    && Unmarshal(parse, t.rows[l].pbData) == Some(Unmarshal(parse, s.rows[l].pbData).value.(agreementPdf := pdf))
  }

  lemma ScanIsStored(parse: Parser, s: Store, id: Bytes, pdf: Bytes)
    ensures match PrepareUpload(parse, s, id, pdf) {
              case Ok(b) => NowHasScan(parse, s, Apply(s, b), id, pdf)
              case Err(e) =>
                if Loc(Application, id) !in s.rows then e == NotFound
                else Unmarshal(parse, s.rows[Loc(Application, id)].pbData).None? && e == Internal
            }
  {
  }

  // ---- the client --------------------------------------------------------------------------------

  class CassandraDB {
    const parse: Parser
    var rows: map<Loc, Row>
    var agreements: map<Bytes, Blob>

    constructor (parse: Parser)
      ensures this.parse == parse && Contents() == EMPTY_STORE
    {
      this.parse := parse;
      rows, agreements := map[], map[];
    }

    function Contents(): Store
      reads this
    {
      Store(rows, agreements)
    }

    method Insert(loc: Loc, person: Person, pbData: Blob, columns: Columns)
      modifies this`rows
      ensures rows == Upsert(old(rows), loc, person, pbData, columns)
    {
      var row := Row(person, pbData, columns);
      if loc in rows { row := row.(columns := rows[loc].columns + columns); }
      rows := rows[loc := row];
      assert map[] + columns == columns;
    }

    method StoreMembershipRequest(person: Person, uuid: Bytes, member: Member, metadata: Metadata, now: uint64,
                                  fault: Fault)
      returns (r: Result<()>)
      modifies this
      ensures Executed(PrepareRequest(person, uuid, member, metadata, now), fault, old(Contents()), Contents(), r)
    {
      var md := metadata;
      if md.requestTimestamp.None? { md := md.(requestTimestamp := Some(now)); }
      var bdata := MarshalAgreement(Agreement([], Some(member), Some(md)));
      if bdata.None? || fault == WriteFails { return Err(Internal); }
      Insert(Loc(Application, uuid), person, bdata.value, FormColumns(member, md));
      r := Ok(());
    }

    method GetMemberDetail(id: Bytes, fault: Fault) returns (r: Result<Agreement>)
      ensures r.Ok? <==> fault != ReadFails && Loc(Members, id) in rows
                         && Unmarshal(parse, rows[Loc(Members, id)].pbData).Some?
      ensures r.Ok? ==> Unmarshal(parse, rows[Loc(Members, id)].pbData) == Some(r.value)
      ensures r.Err? ==> r.error == if fault == ReadFails then Internal
                                    else if Loc(Members, id) !in rows then NotFound else Undecodable
      ensures r.Ok? ==> r.value.memberData == Detail(parse, Contents(), id)
    {
      if fault == ReadFails { return Err(Internal); }
      if Loc(Members, id) !in rows { return Err(NotFound); }
      var member := Unmarshal(parse, rows[Loc(Members, id)].pbData);
      r := if member.None? then Err(Undecodable) else Ok(member.value);
    }

    /** Writes an edited agreement back: blob and columns of the member row, and the agreement copy. */
    method WriteBack(id: Bytes, person: Person, blob: Blob, columns: Columns)
      modifies this
      ensures Contents() == Apply(old(Contents()), Rewrite(id, person, blob, columns))
    {
      Insert(Loc(Members, id), person, blob, columns);
      agreements := agreements[id := blob];
    }

    method SetMemberFee(id: Bytes, fee: uint64, yearly: bool, fault: Fault) returns (r: Result<()>)
      modifies this
      ensures Executed(AfterRead(fault, PrepareEdit(parse, old(Contents()), id, FeeEdit(fee, yearly))),
                       fault, old(Contents()), Contents(), r)
      ensures r.Ok? ==>
                && Detail(parse, old(Contents()), id).Some?
                && NowHolds(parse, old(Contents()), Contents(), id,
                            Detail(parse, old(Contents()), id).value.(fee := Some(fee), feeYearly := Some(yearly)),
                            map[FeeColumn := BigintValue(ToInt64(fee)), FeeYearlyColumn := BooleanValue(yearly)])
      ensures Detail(parse, old(Contents()), id).Some? && fault == NoFault ==> r.Ok?
    {
      FeeIsSet(parse, Contents(), id, fee, yearly);
      var member := GetMemberDetail(id, fault);
      if member.Err? { return Err(member.error); }
      var a := member.value;
      if a.memberData.None? { return Err(NilDereference); }
      var m := a.memberData.value;
      m := m.(fee := Some(fee));
      m := m.(feeYearly := Some(yearly));
      var blob := MarshalAgreement(a.(memberData := Some(m)));
      if blob.None? { return Err(DataLoss); }
      if fault == WriteFails { return Err(Internal); }
      var columns := map[FeeColumn := BigintValue(ToInt64(fee)), FeeYearlyColumn := BooleanValue(yearly)];
      WriteBack(id, rows[Loc(Members, id)].person, blob.value, columns);
      r := Ok(());
    }

    method SetLongValue(id: Bytes, field: string, value: uint64, fault: Fault) returns (r: Result<()>)
      modifies this
      ensures Executed(AfterRead(fault, PrepareEdit(parse, old(Contents()), id, LongEdit(ColumnNamed(field), value))),
                       fault, old(Contents()), Contents(), r)
      ensures r.Ok? ==>
                && Detail(parse, old(Contents()), id).Some? && field == "payments_caught_up_to"
                && NowHolds(parse, old(Contents()), Contents(), id,
                            Detail(parse, old(Contents()), id).value.(paymentsCaughtUpTo := Some(value)),
                            map[PaymentsColumn := BigintValue(ToInt64(value))])
      ensures Detail(parse, old(Contents()), id).Some? && fault == NoFault ==>
                if field == "payments_caught_up_to" then r.Ok? else r == Err(NotFound)
    {
      LongFieldIsSet(parse, Contents(), id, field, value);
      var member := GetMemberDetail(id, fault);
      if member.Err? { return Err(member.error); }
      var a := member.value;
      if field == "payments_caught_up_to" {
        if a.memberData.None? { return Err(NilDereference); }
        a := a.(memberData := Some(a.memberData.value.(paymentsCaughtUpTo := Some(value))));
      } else {
        return Err(NotFound);
      }
      var blob := MarshalAgreement(a);
      if blob.None? || fault == WriteFails { return Err(Internal); }
      WriteBack(id, rows[Loc(Members, id)].person, blob.value, map[PaymentsColumn := BigintValue(ToInt64(value))]);
      r := Ok(());
    }

    method SetBoolValue(id: Bytes, field: string, value: bool, fault: Fault) returns (r: Result<()>)
      modifies this
      ensures Executed(AfterRead(fault, PrepareEdit(parse, old(Contents()), id, BoolEdit(ColumnNamed(field), value))),
                       fault, old(Contents()), Contents(), r)
      ensures r.Ok? ==>
                && Detail(parse, old(Contents()), id).Some? && field == "has_key"
                && NowHolds(parse, old(Contents()), Contents(), id,
                            Detail(parse, old(Contents()), id).value.(hasKey := Some(value)),
                            map[HasKeyColumn := BooleanValue(value)])
      ensures Detail(parse, old(Contents()), id).Some? && fault == NoFault ==>
                if field == "has_key" then r.Ok? else r == Err(NotFound)
    {
      BoolFieldIsSet(parse, Contents(), id, field, value);
      var member := GetMemberDetail(id, fault);
      if member.Err? { return Err(member.error); }
      var a := member.value;
      if field == "has_key" {
        if a.memberData.None? { return Err(NilDereference); }
        a := a.(memberData := Some(a.memberData.value.(hasKey := Some(value))));
      } else {
        return Err(NotFound);
      }
      var blob := MarshalAgreement(a);
      if blob.None? || fault == WriteFails { return Err(Internal); }
      WriteBack(id, rows[Loc(Members, id)].person, blob.value, map[HasKeyColumn := BooleanValue(value)]);
      r := Ok(());
    }

    method SetTextValue(id: Bytes, field: string, value: Bytes, fault: Fault) returns (r: Result<()>)
      modifies this
      ensures Executed(AfterRead(fault, PrepareEdit(parse, old(Contents()), id, TextEdit(ColumnNamed(field), value))),
                       fault, old(Contents()), Contents(), r)
      ensures r.Ok? ==> TextFieldSet(parse, old(Contents()), Contents(), id, field, value)
      ensures Detail(parse, old(Contents()), id).Some? && fault == NoFault ==>
                if field !in TEXT_FIELDS then r == Err(NotFound)
                else if field == "username" && Detail(parse, old(Contents()), id).value.GetUsername() != []
                then r == Err(Internal)
                else r.Ok?
      ensures r.Err? ==> Contents() == old(Contents())
    {
      TextFieldIsSet(parse, Contents(), id, field, value);
      var member := GetMemberDetail(id, fault);
      if member.Err? { return Err(member.error); }
      var a := member.value;
      var column := ColumnNamed(field);
      if !IsTextColumn(column) { return Err(NotFound); }
      if a.memberData.None? { return Err(NilDereference); }
      var m := a.memberData.value;
      match column.value {
        case NameColumn => m := m.(name := Some(value));
        case StreetColumn => m := m.(street := Some(value));
        case CityColumn => m := m.(city := Some(value));
        case ZipcodeColumn => m := m.(zipcode := Some(value));
        case CountryColumn => m := m.(country := Some(value));
        case PhoneColumn => m := m.(phone := Some(value));
        case UsernameColumn =>
          if m.username.Some? && m.username.value != [] { return Err(Internal); }
          m := m.(username := Some(value));
      }
      var blob := MarshalAgreement(a.(memberData := Some(m)));
      if blob.None? || fault == WriteFails { return Err(Internal); }
      WriteBack(id, rows[Loc(Members, id)].person, blob.value, map[column.value := TextValue(value)]);
      r := Ok(());
    }

    method StoreMembershipAgreement(id: Bytes, pdf: Bytes, fault: Fault) returns (r: Result<()>)
      modifies this
      ensures Executed(AfterRead(fault, PrepareUpload(parse, old(Contents()), id, pdf)),
                       fault, old(Contents()), Contents(), r)
      ensures r.Ok? ==> NowHasScan(parse, old(Contents()), Contents(), id, pdf)
    {
      ScanIsStored(parse, Contents(), id, pdf);
      var loc := Loc(Application, id);
      if fault == ReadFails { return Err(Internal); }
      if loc !in rows { return Err(NotFound); }
      var agreement := Unmarshal(parse, rows[loc].pbData);
      if agreement.None? { return Err(Internal); }
      var value := MarshalAgreement(agreement.value.(agreementPdf := pdf));
      if value.None? || fault == WriteFails { return Err(Internal); }
      Insert(loc, rows[loc].person, value.value, map[ApplicationPdfColumn := BlobValue(pdf)]);
      r := Ok(());
    }

    /** The insert-here, delete-there batch. */
    method MoveRow(src: Loc, dst: Loc, person: Person, blob: Blob)
      modifies this`rows
      ensures Contents() == Apply(old(Contents()), Move(src, dst, person, blob))
    {
      Insert(dst, person, blob, map[]);
      rows := rows - {src};
    }

    method MoveMemberToTrash(id: Bytes, initiator: Bytes, reason: Bytes, now: uint64, uuid: Bytes, fault: Fault)
      returns (r: Result<()>)
      modifies this
      ensures Executed(AfterRead(fault, PrepareGoodbye(parse, old(Contents()), id, initiator, reason, now, uuid)),
                       fault, old(Contents()), Contents(), r)
    {
      var loc := Loc(Members, id);
      if fault == ReadFails { return Err(Internal); }
      if loc !in rows { return Err(NotFound); }
      var member := Unmarshal(parse, rows[loc].pbData);
      if member.None? { return Err(DataLoss); }
      if member.value.metadata.None? { return Err(NilDereference); }
      var md := member.value.metadata.value;
      md := md.(goodbyeInitiator := Some(initiator));
      md := md.(goodbyeTimestamp := Some(now));
      md := md.(goodbyeReason := Some(reason));
      var blob := MarshalAgreement(member.value.(metadata := Some(md)));
      if blob.None? || fault == WriteFails { return Err(Internal); }
      MoveRow(loc, Loc(Dequeue, uuid), rows[loc].person, blob.value);
      r := Ok(());
    }

    method MoveNewMemberToFullMember(member: MemberWithKey, fault: Fault) returns (r: Result<()>)
      modifies this
      ensures Executed(PreparePromotion(member), fault, old(Contents()), Contents(), r)
    {
      var blob := MarshalMember(member.member);
      if blob.None? || fault == WriteFails { return Err(Internal); }
      var email := member.member.GetEmail();
      Insert(Loc(Members, email), member.person, blob.value, map[]);
      agreements := agreements[email := blob.value];
      rows := rows - {Loc(Queue, member.key)};
      r := Ok(());
    }

    method MoveDeletedMemberToArchive(member: MemberWithKey, fault: Fault) returns (r: Result<()>)
      modifies this
      ensures Executed(PrepareArchiving(member), fault, old(Contents()), Contents(), r)
    {
      var blob := MarshalMember(member.member);
      if blob.None? || fault == WriteFails { return Err(Internal); }
      MoveRow(Loc(Dequeue, member.key), Loc(Archive, member.key), member.person, blob.value);
      r := Ok(());
    }

    method MoveApplicantToNewMember(id: Bytes, initiator: Bytes, now: uint64, fault: Fault) returns (r: Result<()>)
      modifies this
      ensures Executed(AfterRead(fault, Prepare(parse, old(Contents()), Approve(id, initiator, now))),
                       fault, old(Contents()), Contents(), r)
    {
      r := MoveRecordToTable(id, initiator, Application, Queue, now, fault);
    }

    method MoveApplicantToTrash(id: Bytes, initiator: Bytes, now: uint64, fault: Fault) returns (r: Result<()>)
      modifies this
      ensures Executed(AfterRead(fault, Prepare(parse, old(Contents()), RejectApplicant(id, initiator, now))),
                       fault, old(Contents()), Contents(), r)
    {
      r := MoveRecordToTable(id, initiator, Application, Archive, now, fault);
    }

    method MoveQueuedRecordToTrash(id: Bytes, initiator: Bytes, now: uint64, fault: Fault) returns (r: Result<()>)
      modifies this
      ensures Executed(AfterRead(fault, Prepare(parse, old(Contents()), CancelQueued(id, initiator, now))),
                       fault, old(Contents()), Contents(), r)
    {
      r := MoveRecordToTable(id, initiator, Queue, Archive, now, fault);
    }

    method MoveRecordToTable(id: Bytes, initiator: Bytes, src: Table, dst: Table, now: uint64, fault: Fault)
      returns (r: Result<()>)
      modifies this
      ensures Executed(AfterRead(fault, PrepareMove(parse, old(Contents()), id, initiator, now, src, dst)),
                       fault, old(Contents()), Contents(), r)
    {
      var loc := Loc(src, id);
      if fault == ReadFails { return Err(Internal); }
      if loc !in rows { return Err(NotFound); }
      var member := Unmarshal(parse, rows[loc].pbData);
      if member.None? { return Err(DataLoss); }
      var a := member.value;
      if dst == Queue && |a.agreementPdf| == 0 { return Err(Internal); }
      if a.metadata.None? { return Err(NilDereference); }
      var md := a.metadata.value.(approverUid := Some(initiator));
      md := md.(approvalTimestamp := Some(now));
      var blob := MarshalAgreement(a.(metadata := Some(md)));
      if blob.None? || fault == WriteFails { return Err(Internal); }
      MoveRow(loc, Loc(dst, id), rows[loc].person, blob.value);
      r := Ok(());
    }
  }
}
