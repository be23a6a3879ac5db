/** The records of member.proto, their encoding, and the fields the setters edit. */
module Records {
  import opened ByteStrings

  datatype Option<+T> = None | Some(value: T) {
    function GetOr(default: T): T {
      match this
      case Some(v) => v
      case None => default
    }
  }

  /** Undecodable is a bare unmarshal error; NilDereference is Go's run-time panic on a nil pointer. */
  datatype Error = NotFound | DataLoss | Internal | Undecodable | NilDereference

  datatype Result<+T> = Ok(value: T) | Err(error: Error)

  const TWO_64: int := 0x1_0000_0000_0000_0000
  type uint64 = x: int | 0 <= x < TWO_64
  type int64 = x: int | -0x8000_0000_0000_0000 <= x < 0x8000_0000_0000_0000

  datatype Member = Member(
    id: Option<uint64>, name: Option<Bytes>, street: Option<Bytes>, city: Option<Bytes>,
    zipcode: Option<Bytes>, country: Option<Bytes>, email: Option<Bytes>, emailVerified: Option<bool>,
    phone: Option<Bytes>, fee: Option<uint64>, username: Option<Bytes>, pwhash: Option<Bytes>,
    feeYearly: Option<bool>, hasKey: Option<bool>, paymentsCaughtUpTo: Option<uint64>)
  {
    /** The fields proto2 marks `required`: without them neither encoding nor decoding succeeds. */
    predicate Complete() {
      name.Some? && street.Some? && city.Some? && country.Some? && fee.Some? && feeYearly.Some?
    }

    function GetEmail(): Bytes { email.GetOr([]) }
    function GetUsername(): Bytes { username.GetOr([]) }
  }

  const EMPTY_MEMBER := Member(None, None, None, None, None, None, None, None, None, None, None, None, None, None, None)

  datatype Metadata = Metadata(
    requestTimestamp: Option<uint64>, requestSourceIp: Option<Bytes>, verificationEmail: Option<Bytes>,
    approvalTimestamp: Option<uint64>, approverUid: Option<Bytes>, comment: Option<Bytes>,
    userAgent: Option<Bytes>, goodbyeTimestamp: Option<uint64>, goodbyeInitiator: Option<Bytes>,
    goodbyeReason: Option<Bytes>)

  /** An absent scan and an empty one are both the empty byte string: only its length is looked at. */
  datatype Agreement = Agreement(agreementPdf: Bytes, memberData: Option<Member>, metadata: Option<Metadata>) {
    predicate Complete() { memberData.Some? ==> memberData.value.Complete() }
  }

  /** What a pb_data cell holds: the encoding of an agreement or of a bare member. */
  datatype Blob = AgreementBlob(agreement: Agreement) | MemberBlob(member: Member)

  /** How the bytes of a bare member read as an agreement, if they do. Wire bytes are not
      modelled, so this is a parameter and every theorem holds for each choice of it. */
  type Parser = Member -> Option<Agreement>

  function MarshalAgreement(a: Agreement): Option<Blob> {
    if a.Complete() then Some(AgreementBlob(a)) else None
  }

  function MarshalMember(m: Member): Option<Blob> {
    if m.Complete() then Some(MemberBlob(m)) else None
  }

  function Unmarshal(parse: Parser, b: Blob): Option<Agreement> {
    match b
    case AgreementBlob(a) => if a.Complete() then Some(a) else None
    case MemberBlob(m) =>
      match parse(m)
      case Some(a) => if a.Complete() then Some(a) else None
      case None => None
  }

  const REQUIRED: set<Column> := {NameColumn, StreetColumn, CityColumn, CountryColumn, FeeColumn, FeeYearlyColumn}

  /** A record is encoded exactly when its required fields are set, and reads back as it was. */
  lemma EncodesIffRequired(parse: Parser, m: Member, a: Agreement)
    ensures MarshalMember(m).Some? <==> forall c :: c in REQUIRED ==> Field(m, c).Some?
    ensures MarshalAgreement(a).Some? <==>
              (a.memberData.Some? ==> forall c :: c in REQUIRED ==> Field(a.memberData.value, c).Some?)
    ensures MarshalAgreement(a).Some? ==> Unmarshal(parse, MarshalAgreement(a).value) == Some(a)
  {
    RequiredFields(m);
    if a.memberData.Some? { RequiredFields(a.memberData.value); }
  }

  lemma RequiredFields(m: Member)
    ensures m.Complete() <==> forall c :: c in REQUIRED ==> Field(m, c).Some?
  {
    if forall c :: c in REQUIRED ==> Field(m, c).Some? {
      assert Field(m, NameColumn).Some? && Field(m, StreetColumn).Some? && Field(m, CityColumn).Some?;
      assert Field(m, CountryColumn).Some? && Field(m, FeeColumn).Some? && Field(m, FeeYearlyColumn).Some?;
    }
  }

  // ---- columns -------------------------------------------------------------------------------

  datatype Column =
    | IdColumn | NameColumn | StreetColumn | CityColumn | ZipcodeColumn | CountryColumn | EmailColumn
    | EmailVerifiedColumn | PhoneColumn | FeeColumn | UsernameColumn | PwhashColumn | FeeYearlyColumn
    | HasKeyColumn | PaymentsColumn | ApplicationPdfColumn | SourceIpColumn | UserAgentColumn

  datatype CqlValue =
    | TextValue(text: Bytes)
    | BigintValue(bigint: int64)
    | BooleanValue(boolean: bool)
    | BlobValue(blob: Bytes)

  type Columns = map<Column, CqlValue>

  /** The bigint a uint64 is stored as, and the conversion back when it is read. */
  function ToInt64(x: uint64): int64 { if x < 0x8000_0000_0000_0000 then x else x - TWO_64 }
  function ToUint64(x: int64): uint64 { if x >= 0 then x else x + TWO_64 }

  /** The same 64 bits, read with and without sign. */
  lemma SameBits(x: uint64, y: int64)
    ensures (x - ToInt64(x)) % TWO_64 == 0 && ToUint64(ToInt64(x)) == x
    ensures (y - ToUint64(y)) % TWO_64 == 0 && ToInt64(ToUint64(y)) == y
  {
  }

  function CastString(row: Columns, c: Column): Option<Bytes> {
    if c in row && row[c].TextValue? then Some(row[c].text) else None
  }

  function CastBool(row: Columns, c: Column): Option<bool> {
    if c in row && row[c].BooleanValue? then Some(row[c].boolean) else None
  }

  function CastInt64AsUint64(row: Columns, c: Column): Option<uint64> {
    if c in row && row[c].BigintValue? then Some(ToUint64(row[c].bigint)) else None
  }

  /** A column of the wrong type reads like an absent one. */
  function MemberFromRow(row: Columns): Member {
    Member(
      CastInt64AsUint64(row, IdColumn), CastString(row, NameColumn), CastString(row, StreetColumn),
      CastString(row, CityColumn), CastString(row, ZipcodeColumn), CastString(row, CountryColumn),
      CastString(row, EmailColumn), CastBool(row, EmailVerifiedColumn), CastString(row, PhoneColumn),
      CastInt64AsUint64(row, FeeColumn), CastString(row, UsernameColumn), CastString(row, PwhashColumn),
      CastBool(row, FeeYearlyColumn), CastBool(row, HasKeyColumn), CastInt64AsUint64(row, PaymentsColumn))
  }

  /** The value a member's field has as a column, if the field is set. */
  function Field(m: Member, c: Column): Option<CqlValue> {
    match c
    case IdColumn => Bigint(m.id)
    case NameColumn => Text(m.name)
    case StreetColumn => Text(m.street)
    case CityColumn => Text(m.city)
    case ZipcodeColumn => Text(m.zipcode)
    case CountryColumn => Text(m.country)
    case EmailColumn => Text(m.email)
    case EmailVerifiedColumn => Boolean(m.emailVerified)
    case PhoneColumn => Text(m.phone)
    case FeeColumn => Bigint(m.fee)
    case UsernameColumn => Text(m.username)
    case PwhashColumn => Text(m.pwhash)
    case FeeYearlyColumn => Boolean(m.feeYearly)
    case HasKeyColumn => Boolean(m.hasKey)
    case PaymentsColumn => Bigint(m.paymentsCaughtUpTo)
    case ApplicationPdfColumn => None
    case SourceIpColumn => None
    case UserAgentColumn => None
  }

  function Text(t: Option<Bytes>): Option<CqlValue> { if t.Some? then Some(TextValue(t.value)) else None }
  function Bigint(x: Option<uint64>): Option<CqlValue> { if x.Some? then Some(BigintValue(ToInt64(x.value))) else None }
  function Boolean(b: Option<bool>): Option<CqlValue> { if b.Some? then Some(BooleanValue(b.value)) else None }

  /** A member as a plain map of its set fields. */
  ghost function FieldMap(m: Member): Columns {
    map c: Column | Field(m, c).Some? :: Field(m, c).value
  }

  /** A value of the column's type. */
  predicate Typed(c: Column, v: CqlValue) {
    match c
    case IdColumn => v.BigintValue?
    case FeeColumn => v.BigintValue?
    case PaymentsColumn => v.BigintValue?
    case EmailVerifiedColumn => v.BooleanValue?
    case FeeYearlyColumn => v.BooleanValue?
    case HasKeyColumn => v.BooleanValue?
    case ApplicationPdfColumn => false
    case SourceIpColumn => false
    case UserAgentColumn => false
    case _ => v.TextValue?
  }

  lemma FieldsAreTyped(m: Member, c: Column)
    requires Field(m, c).Some?
    ensures Typed(c, Field(m, c).value)
  {
  }

  lemma FieldOfRow(row: Columns, c: Column)
    requires c in row ==> Typed(c, row[c])
    ensures Field(MemberFromRow(row), c) == if c in row then Some(row[c]) else None
  {
  }

  lemma TextCast(m: Member, c: Column, t: Option<Bytes>)
    requires Field(m, c) == Text(t)
    ensures CastString(FieldMap(m), c) == t
  {
  }

  lemma BooleanCast(m: Member, c: Column, b: Option<bool>)
    requires Field(m, c) == Boolean(b)
    ensures CastBool(FieldMap(m), c) == b
  {
  }

  lemma BigintCast(m: Member, c: Column, x: Option<uint64>)
    requires Field(m, c) == Bigint(x)
    ensures CastInt64AsUint64(FieldMap(m), c) == x
  {
  }

  /** A row holding every set field of `m`; the quantifiers keep the map itself out of the way. */
  ghost predicate HoldsFields(f: Columns, m: Member) {
    && (forall c: Column, t :: Field(m, c) == Text(t) ==> CastString(f, c) == t)
    && (forall c: Column, b :: Field(m, c) == Boolean(b) ==> CastBool(f, c) == b)
    && (forall c: Column, x :: Field(m, c) == Bigint(x) ==> CastInt64AsUint64(f, c) == x)
  }

  lemma HoldersReadBack(m: Member, f: Columns)
    requires HoldsFields(f, m)
    ensures MemberFromRow(f) == m
  {
    assert Field(m, IdColumn) == Bigint(m.id) && Field(m, FeeColumn) == Bigint(m.fee);
    assert Field(m, PaymentsColumn) == Bigint(m.paymentsCaughtUpTo);
    assert Field(m, EmailVerifiedColumn) == Boolean(m.emailVerified);
    assert Field(m, FeeYearlyColumn) == Boolean(m.feeYearly) && Field(m, HasKeyColumn) == Boolean(m.hasKey);
    assert Field(m, NameColumn) == Text(m.name) && Field(m, StreetColumn) == Text(m.street);
    assert Field(m, CityColumn) == Text(m.city) && Field(m, ZipcodeColumn) == Text(m.zipcode);
    assert Field(m, CountryColumn) == Text(m.country) && Field(m, EmailColumn) == Text(m.email);
    assert Field(m, PhoneColumn) == Text(m.phone) && Field(m, UsernameColumn) == Text(m.username);
    assert Field(m, PwhashColumn) == Text(m.pwhash);
  }

  /** Reading a row that holds every set field gives the member back, 64-bit fields included. */
  lemma MemberFromFieldMap(m: Member)
    ensures MemberFromRow(FieldMap(m)) == m
  {
    forall c: Column, t | Field(m, c) == Text(t) ensures CastString(FieldMap(m), c) == t { TextCast(m, c, t); }
    forall c: Column, b | Field(m, c) == Boolean(b) ensures CastBool(FieldMap(m), c) == b { BooleanCast(m, c, b); }
    forall c: Column, x | Field(m, c) == Bigint(x) ensures CastInt64AsUint64(FieldMap(m), c) == x {
      BigintCast(m, c, x);
    }
    HoldersReadBack(m, FieldMap(m));
  }
}
