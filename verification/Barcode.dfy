/** The barcode on the printed form and the lookup of a scanned one. */
module Barcode {
  import opened ByteStrings
  import opened Records
  import opened Decimal

  /** A uuid as gocql holds it; its textual form is gocql's and not modelled. */
  predicate IsUuid(u: Bytes) { |u| == 16 }

  datatype Lookup = NotANumber | NoLookup | Failed | Found(uuid: Bytes)

  /** The decimal text of a uuid's bytes, which is what the barcode encodes. Scanned, it finds the
      uuid again exactly when the first byte is at least 0x80. */
  method MakeBarcode(uuid: Bytes) returns (code: string)
    requires IsUuid(uuid)
    ensures ParseSigned(code) == Some(FromBytes(uuid))
    ensures LookupOf(code) == if uuid[0] >= 0x80 then Found(uuid) else NoLookup
  {
    var bigint := FromBytes(uuid);
    code := Format(bigint);
    ParseSignedUndoesFormat(bigint);
    BarcodeRoundTrip(uuid);
  }

  /** The single-applicant branch: a number of exactly 128 bits, whatever its sign, is looked up
      by its bytes; any other number selects nothing. Failed is the branch for bytes that
      are no uuid, which is never taken. */
  method LookUpStart(start: string) returns (r: Lookup)
    ensures r == LookupOf(start)
    ensures r == NotANumber <==> ParseSigned(start).None?
    ensures r != Failed
    ensures r.Found? ==> IsUuid(r.uuid) && r.uuid[0] >= 0x80 && FromBytes(r.uuid) == Magnitude(ParseSigned(start).value)
  {
    LookupNeverFails(start);
    if LookupOf(start).Found? { FoundIff(start, LookupOf(start).uuid); }
    var bigint := ParseSigned(start);
    if bigint.None? { return NotANumber; }
    var magnitude: nat := if bigint.value < 0 then -bigint.value else bigint.value;
    r := NoLookup;
    if BitLen(magnitude) == 128 {
      var uuid := ToBytes(magnitude);
      if |uuid| != 16 { return Failed; }
      r := Found(uuid);
    }
  }

  function Magnitude(x: int): nat { if x < 0 then -x else x }

  function LookupOf(start: string): Lookup {
    match ParseSigned(start)
    case None => NotANumber
    case Some(x) =>
      if BitLen(Magnitude(x)) != 128 then NoLookup
      else if |ToBytes(Magnitude(x))| != 16 then Failed
      else Found(ToBytes(Magnitude(x)))
  }

  /** Printing and scanning finds the application again exactly when its uuid starts with a byte of
      at least 0x80; for every other uuid no lookup happens at all. */
  lemma BarcodeRoundTrip(u: Bytes)
    requires IsUuid(u)
    ensures LookupOf(Format(FromBytes(u))) == if u[0] >= 0x80 then Found(u) else NoLookup
  {
    ParseSignedUndoesFormat(FromBytes(u));
    BitLenIsFirstByte(u, 16);
    if u[0] >= 0x80 { FromBytesReadsBack(u); }
  }

  /** Conversely, whatever text is scanned: it finds a uuid only if it is a number of that
      magnitude, and then that uuid starts with at least 0x80. */
  lemma FoundIff(start: string, u: Bytes)
    ensures LookupOf(start) == Found(u) <==>
              && IsUuid(u) && u[0] >= 0x80
              && ParseSigned(start).Some? && Magnitude(ParseSigned(start).value) == FromBytes(u)
    ensures LookupOf(start) == Found(u) <==>
              && IsUuid(u) && u[0] >= 0x80
              && ParseSigned(start) in {Some(FromBytes(u)), Some(0 - FromBytes(u) as int)}
  {
    if ParseSigned(start).Some? {
      var n := Magnitude(ParseSigned(start).value);
      if BitLen(n) == 128 { BytesOfBitLen(n, 16); }
      if IsUuid(u) && u[0] >= 0x80 && n == FromBytes(u) {
        BitLenIsFirstByte(u, 16);
        FromBytesReadsBack(u);
      }
    }
  }

  /** The error branch behind the 128-bit test is dead. */
  lemma LookupNeverFails(start: string)
    ensures LookupOf(start) != Failed
  {
    if ParseSigned(start).Some? {
      var n := Magnitude(ParseSigned(start).value);
      if BitLen(n) == 128 { BytesOfBitLen(n, 16); }
    }
  }

  /** A barcode stands for one uuid only, so for one application key. */
  lemma BarcodesAreDistinct(code: string, u: Bytes, v: Bytes)
    requires IsUuid(u) && IsUuid(v)
    requires ParseSigned(code) == Some(FromBytes(u)) && ParseSigned(code) == Some(FromBytes(v))
    ensures APPLICATION_PREFIX + u == APPLICATION_PREFIX + v
  {
    FromBytesIsInjective(u, v);
  }
}
