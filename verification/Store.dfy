/** The Cassandra tables and the statements that change them. Every operation is a read step,
    which prepares one batch from what it read, and later that batch, applied atomically. */
module Store {
  import opened ByteStrings
  import opened Records

  /** Whose record a row is. The store has no such column and no operation looks at it: it
      follows a record through its changes of key, from uuid to email to a fresh uuid. */
  type Person = nat

  datatype Table = Application | Queue | Members | Dequeue | Archive

  function Rank(t: Table): nat {
    match t
    case Application => 0
    case Queue => 1
    case Members => 2
    case Dequeue => 3
    case Archive => 4
  }

  /** A row's place: its table and its key without the table's prefix, which is
      an email address in `members` and a uuid elsewhere. */
  datatype Loc = Loc(table: Table, id: Bytes)

  datatype Row = Row(person: Person, pbData: Blob, columns: Columns)

  /** The five lifecycle tables, and `member_agreements`. */
  datatype Store = Store(rows: map<Loc, Row>, agreements: map<Bytes, Blob>)

  const EMPTY_STORE := Store(map[], map[])

  /** A decoded queue entry, as the enumerations hand it out. */
  datatype MemberWithKey = MemberWithKey(key: Bytes, person: Person, member: Member)

  /** What the setters are asked for; the column is the one whose name the caller sent, if any. */
  datatype Edit =
    | FeeEdit(fee: uint64, yearly: bool)
    | LongEdit(column: Option<Column>, long: uint64)
    | BoolEdit(column: Option<Column>, flag: bool)
    | TextEdit(column: Option<Column>, text: Bytes)

  datatype Op =
    | Upload(id: Bytes, pdf: Bytes)
    | Approve(id: Bytes, initiator: Bytes, now: uint64)
    | RejectApplicant(id: Bytes, initiator: Bytes, now: uint64)
    | CancelQueued(id: Bytes, initiator: Bytes, now: uint64)
    | PromoteQueued(id: Bytes, newId: Option<uint64>)
    | Goodbye(email: Bytes, initiator: Bytes, reason: Bytes, now: uint64, uuid: Bytes)
    | ArchiveDeparted(id: Bytes)
    | EditMember(email: Bytes, edit: Edit)

  /** The batches the operations send, one constructor per shape. */
  datatype Batch =
    | Put(loc: Loc, person: Person, pbData: Blob, columns: Columns)
    | Rewrite(email: Bytes, person: Person, pbData: Blob, columns: Columns)
    | Promote(email: Bytes, person: Person, pbData: Blob, queueId: Bytes)
    | Move(src: Loc, dst: Loc, person: Person, pbData: Blob)

  /** The row a batch takes away or rewrites, and the one it leaves. */
  function Source(b: Batch): Loc {
    match b
    case Put(loc, _, _, _) => loc
    case Rewrite(email, _, _, _) => Loc(Members, email)
    case Promote(_, _, _, queueId) => Loc(Queue, queueId)
    case Move(src, _, _, _) => src
  }

  function Target(b: Batch): Loc {
    match b
    case Put(loc, _, _, _) => loc
    case Rewrite(email, _, _, _) => Loc(Members, email)
    case Promote(email, _, _, _) => Loc(Members, email)
    case Move(_, dst, _, _) => dst
  }

  /** All operations but uploads and edits move a row to another table. */
  predicate Moves(op: Op) { !op.Upload? && !op.EditMember? }

  /** The row an operation reads. */
  function Origin(op: Op): Loc {
    match op
    case Upload(id, _) => Loc(Application, id)
    case Approve(id, _, _) => Loc(Application, id)
    case RejectApplicant(id, _, _) => Loc(Application, id)
    case CancelQueued(id, _, _) => Loc(Queue, id)
    case PromoteQueued(id, _) => Loc(Queue, id)
    case Goodbye(email, _, _, _, _) => Loc(Members, email)
    case ArchiveDeparted(id) => Loc(Dequeue, id)
    case EditMember(email, _) => Loc(Members, email)
  }

  /** The table an operation leaves its record in. */
  function Destination(op: Op): Table {
    match op
    case Upload(_, _) => Application
    case Approve(_, _, _) => Queue
    case RejectApplicant(_, _, _) => Archive
    case CancelQueued(_, _, _) => Archive
    case PromoteQueued(_, _) => Members
    case Goodbye(_, _, _, _, _) => Dequeue
    case ArchiveDeparted(_) => Archive
    case EditMember(_, _) => Members
  }

  // ---- statements ----------------------------------------------------------------------------

  /** INSERT and UPDATE alike create the row if need be and leave unmentioned columns alone. */
  function Upsert(rows: map<Loc, Row>, loc: Loc, person: Person, pbData: Blob, columns: Columns): map<Loc, Row> {
    rows[loc := Row(person, pbData, (if loc in rows then rows[loc].columns else map[]) + columns)]
  }

  function Apply(s: Store, b: Batch): Store {
    match b
    case Put(loc, person, pbData, columns) =>
      s.(rows := Upsert(s.rows, loc, person, pbData, columns))
    case Rewrite(email, person, pbData, columns) =>
      Store(Upsert(s.rows, Loc(Members, email), person, pbData, columns), s.agreements[email := pbData])
    case Promote(email, person, pbData, queueId) =>
      Store(Upsert(s.rows, Loc(Members, email), person, pbData, map[]) - {Loc(Queue, queueId)},
            s.agreements[email := pbData])
    case Move(src, dst, person, pbData) =>
      s.(rows := Upsert(s.rows, dst, person, pbData, map[]) - {src})
  }

  // ---- edits ---------------------------------------------------------------------------------

  /** The columns of `members` some setter writes; nothing else writes any. */
  const SETTABLE: set<Column> := {NameColumn, StreetColumn, CityColumn, ZipcodeColumn, CountryColumn, PhoneColumn,
                                  UsernameColumn, FeeColumn, FeeYearlyColumn, HasKeyColumn, PaymentsColumn}

  /** The column a caller's field name stands for, among those some setter accepts. */
  function ColumnNamed(field: string): Option<Column> {
    if field == "name" then Some(NameColumn)
    else if field == "street" then Some(StreetColumn)
    else if field == "city" then Some(CityColumn)
    else if field == "zipcode" then Some(ZipcodeColumn)
    else if field == "country" then Some(CountryColumn)
    else if field == "phone" then Some(PhoneColumn)
    else if field == "username" then Some(UsernameColumn)
    else if field == "has_key" then Some(HasKeyColumn)
    else if field == "payments_caught_up_to" then Some(PaymentsColumn)
    else None
  }

  predicate IsTextColumn(c: Option<Column>) {
    c.Some? && (c.value.NameColumn? || c.value.StreetColumn? || c.value.CityColumn? || c.value.ZipcodeColumn?
                || c.value.CountryColumn? || c.value.PhoneColumn? || c.value.UsernameColumn?)
  }

  function SetText(m: Member, c: Column, text: Bytes): Member {
    match c
    case NameColumn => m.(name := Some(text))
    case StreetColumn => m.(street := Some(text))
    case CityColumn => m.(city := Some(text))
    case ZipcodeColumn => m.(zipcode := Some(text))
    case CountryColumn => m.(country := Some(text))
    case PhoneColumn => m.(phone := Some(text))
    case UsernameColumn => m.(username := Some(text))
    case _ => m
  }

  /** The edited agreement and the columns written with it. An unknown field is reported before
      the member is touched; a nil member is a nil dereference. */
  function EditAgreement(a: Agreement, e: Edit): Result<(Agreement, Columns)> {
    match e
    case FeeEdit(fee, yearly) =>
      if a.memberData.None? then Err(NilDereference)
      else Ok((a.(memberData := Some(a.memberData.value.(fee := Some(fee), feeYearly := Some(yearly)))),
               map[FeeColumn := BigintValue(ToInt64(fee)), FeeYearlyColumn := BooleanValue(yearly)]))
    case LongEdit(column, value) =>
      if column != Some(PaymentsColumn) then Err(NotFound)
      else if a.memberData.None? then Err(NilDereference)
      else Ok((a.(memberData := Some(a.memberData.value.(paymentsCaughtUpTo := Some(value)))),
               map[PaymentsColumn := BigintValue(ToInt64(value))]))
    case BoolEdit(column, value) =>
      if column != Some(HasKeyColumn) then Err(NotFound)
      else if a.memberData.None? then Err(NilDereference)
      else Ok((a.(memberData := Some(a.memberData.value.(hasKey := Some(value)))),
               map[HasKeyColumn := BooleanValue(value)]))
    case TextEdit(column, value) =>
      if !IsTextColumn(column) then Err(NotFound)
      else if a.memberData.None? then Err(NilDereference)
      else if column.value == UsernameColumn && a.memberData.value.GetUsername() != [] then Err(Internal)
      else Ok((a.(memberData := Some(SetText(a.memberData.value, column.value, value))),
               map[column.value := TextValue(value)]))
  }

  // ---- read steps ----------------------------------------------------------------------------

  /** The columns an application is stored with, beside its blob. */
  const FORM: set<Column> := {NameColumn, StreetColumn, CityColumn, ZipcodeColumn, CountryColumn, EmailColumn,
                              EmailVerifiedColumn, PhoneColumn, FeeColumn, UsernameColumn, PwhashColumn,
                              FeeYearlyColumn, SourceIpColumn, UserAgentColumn}

  /** An absent field is stored as null; the email address is not verified yet, whatever the request says. */
  function FormValue(m: Member, md: Metadata, c: Column): Option<CqlValue> {
    match c
    case EmailVerifiedColumn => Some(BooleanValue(false))
    case FeeColumn => Some(BigintValue(ToInt64(m.fee.GetOr(0))))
    case FeeYearlyColumn => Some(BooleanValue(m.feeYearly.GetOr(false)))
    case SourceIpColumn => Text(md.requestSourceIp)
    case UserAgentColumn => Text(md.userAgent)
    case _ => Field(m, c)
  }

  function FormColumns(m: Member, md: Metadata): Columns {
    map c | c in FORM && FormValue(m, md, c).Some? :: FormValue(m, md, c).value
  }

  /** A new application. The request timestamp is filled in unless the request carries one. */
  function PrepareRequest(person: Person, uuid: Bytes, member: Member, metadata: Metadata, now: uint64): Result<Batch> {
    var stamped := if metadata.requestTimestamp.None? then metadata.(requestTimestamp := Some(now)) else metadata;
    match MarshalAgreement(Agreement([], Some(member), Some(stamped)))
    case None => Err(Internal)
    case Some(blob) => Ok(Put(Loc(Application, uuid), person, blob, FormColumns(member, stamped)))
  }

  function PrepareUpload(parse: Parser, s: Store, id: Bytes, pdf: Bytes): (r: Result<Batch>)
    ensures r.Ok? ==> Loc(Application, id) in s.rows && r.value.Put? && r.value.loc == Loc(Application, id)
                      && r.value.person == s.rows[r.value.loc].person
  {
    var loc := Loc(Application, id);
    if loc !in s.rows then Err(NotFound)
    else
      match Unmarshal(parse, s.rows[loc].pbData)
      case None => Err(Internal)
      case Some(a) =>
        match MarshalAgreement(a.(agreementPdf := pdf))
        case None => Err(Internal)
        case Some(blob) => Ok(Put(loc, s.rows[loc].person, blob, map[ApplicationPdfColumn := BlobValue(pdf)]))
  }

  function Approved(a: Agreement, initiator: Bytes, now: uint64): Agreement
    requires a.metadata.Some?
  {
    a.(metadata := Some(a.metadata.value.(approverUid := Some(initiator), approvalTimestamp := Some(now))))
  }

  function PrepareMove(parse: Parser, s: Store, id: Bytes, initiator: Bytes, now: uint64, src: Table, dst: Table)
    : (r: Result<Batch>)
    ensures r.Ok? ==> Loc(src, id) in s.rows && r.value.Move? && r.value.src == Loc(src, id)
                      && r.value.dst == Loc(dst, id) && r.value.person == s.rows[r.value.src].person
  {
    var loc := Loc(src, id);
    if loc !in s.rows then Err(NotFound)
    else
      match Unmarshal(parse, s.rows[loc].pbData)
      case None => Err(DataLoss)
      case Some(a) =>
        if dst == Queue && |a.agreementPdf| == 0 then Err(Internal)
        else if a.metadata.None? then Err(NilDereference)
        else
          match MarshalAgreement(Approved(a, initiator, now))
          case None => Err(Internal)
          case Some(blob) => Ok(Move(loc, Loc(dst, id), s.rows[loc].person, blob))
  }

  function Departed(a: Agreement, initiator: Bytes, reason: Bytes, now: uint64): Agreement
    requires a.metadata.Some?
  {
    a.(metadata := Some(a.metadata.value.(
      goodbyeInitiator := Some(initiator), goodbyeTimestamp := Some(now), goodbyeReason := Some(reason))))
  }

  function PrepareGoodbye(parse: Parser, s: Store, email: Bytes, initiator: Bytes, reason: Bytes, now: uint64,
                          uuid: Bytes)
    : (r: Result<Batch>)
    ensures r.Ok? ==> Loc(Members, email) in s.rows && r.value.Move? && r.value.src == Loc(Members, email)
                      && r.value.dst == Loc(Dequeue, uuid) && r.value.person == s.rows[r.value.src].person
  {
    var loc := Loc(Members, email);
    if loc !in s.rows then Err(NotFound)
    else
      match Unmarshal(parse, s.rows[loc].pbData)
      case None => Err(DataLoss)
      case Some(a) =>
        if a.metadata.None? then Err(NilDereference)
        else
          match MarshalAgreement(Departed(a, initiator, reason, now))
          case None => Err(Internal)
          case Some(blob) => Ok(Move(loc, Loc(Dequeue, uuid), s.rows[loc].person, blob))
  }

  function PrepareEdit(parse: Parser, s: Store, email: Bytes, edit: Edit): (r: Result<Batch>)
    ensures r.Ok? ==> Loc(Members, email) in s.rows && r.value.Rewrite? && r.value.email == email
                      && r.value.person == s.rows[Loc(Members, email)].person
  {
    var loc := Loc(Members, email);
    if loc !in s.rows then Err(NotFound)
    else
      match Unmarshal(parse, s.rows[loc].pbData)
      case None => Err(Undecodable)
      case Some(a) =>
        match EditAgreement(a, edit)
        case Err(error) => Err(error)
        case Ok((edited, columns)) =>
          match MarshalAgreement(edited)
          case None => Err(if edit.FeeEdit? then DataLoss else Internal)
          case Some(blob) => Ok(Rewrite(email, s.rows[loc].person, blob, columns))
  }

  /** The entry an enumeration of table `t` yields for one row; an undecodable row yields none. */
  function QueuedRecord(parse: Parser, s: Store, t: Table, id: Bytes): (r: Option<MemberWithKey>)
    ensures r.Some? ==> Loc(t, id) in s.rows && r.value.key == id && r.value.person == s.rows[Loc(t, id)].person
  {
    if Loc(t, id) !in s.rows then None
    else
      match Unmarshal(parse, s.rows[Loc(t, id)].pbData)
      case None => None
      case Some(a) => Some(MemberWithKey(id, s.rows[Loc(t, id)].person, a.memberData.GetOr(EMPTY_MEMBER)))
  }

  /** Promotion encodes the bare member it is handed and reads nothing itself. */
  function PreparePromotion(r: MemberWithKey): (b: Result<Batch>)
    ensures b.Ok? ==> b.value.Promote? && b.value.person == r.person && b.value.queueId == r.key
  {
    match MarshalMember(r.member)
    case None => Err(Internal)
    case Some(blob) => Ok(Promote(r.member.GetEmail(), r.person, blob, r.key))
  }

  function PrepareArchiving(r: MemberWithKey): (b: Result<Batch>)
    ensures b.Ok? ==> b.value.Move? && b.value.person == r.person
                      && b.value.src == Loc(Dequeue, r.key) && b.value.dst == Loc(Archive, r.key)
  {
    match MarshalMember(r.member)
    case None => Err(Internal)
    case Some(blob) => Ok(Move(Loc(Dequeue, r.key), Loc(Archive, r.key), r.person, blob))
  }

  function WithId(r: MemberWithKey, newId: Option<uint64>): MemberWithKey {
    if newId.Some? then r.(member := r.member.(id := newId)) else r
  }

  /** The read step of an operation: for the two queue-draining moves it is the enumeration
      that handed out the record, for the others the SELECT they start with. */
  function Prepare(parse: Parser, s: Store, op: Op): (r: Result<Batch>)
    ensures r.Ok? ==> Origin(op) in s.rows && s.rows[Origin(op)].person == r.value.person
    ensures r.Ok? ==> Source(r.value) == Origin(op) && Target(r.value).table == Destination(op)
    ensures r.Ok? ==> (r.value.Promote? || r.value.Move? <==> Moves(op)) && (r.value.Rewrite? <==> op.EditMember?)
    ensures r.Ok? ==> (Source(r.value) == Target(r.value) <==> !Moves(op))
  {
    match op
    case Upload(id, pdf) => PrepareUpload(parse, s, id, pdf)
    case Approve(id, initiator, now) => PrepareMove(parse, s, id, initiator, now, Application, Queue)
    case RejectApplicant(id, initiator, now) => PrepareMove(parse, s, id, initiator, now, Application, Archive)
    case CancelQueued(id, initiator, now) => PrepareMove(parse, s, id, initiator, now, Queue, Archive)
    case PromoteQueued(id, newId) =>
      (match QueuedRecord(parse, s, Queue, id)
       case None => Err(NotFound)
       case Some(r) => PreparePromotion(WithId(r, newId)))
    case Goodbye(email, initiator, reason, now, uuid) => PrepareGoodbye(parse, s, email, initiator, reason, now, uuid)
    case ArchiveDeparted(id) =>
      (match QueuedRecord(parse, s, Dequeue, id)
       case None => Err(NotFound)
       case Some(r) => PrepareArchiving(r))
    case EditMember(email, edit) => PrepareEdit(parse, s, email, edit)
  }
}
