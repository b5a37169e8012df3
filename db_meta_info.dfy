/** The database schema: the six contractor fields with their names, widths
    and types, the record geometry, and the record numbering constants. Also
    the two enumerations the file format rests on, the field type and the
    record flag. */
module DBMetaInfo {
  import opened Wrappers
  import opened StringHelper

  /** `DBType`: the data type of a database field. */
  datatype DBType = TEXT | INTEGER | MONEY

  /** `RecordFlagEnum`: VALID (ordinal 0) or INVALID, a deleted record
      (ordinal 1). */
  datatype RecordFlag = VALID | INVALID {
    function Ordinal(): (n: int)
      ensures 0 <= n < 2
      ensures n == 0 <==> this == VALID
    {
      if this == VALID then 0 else 1
    }
  }

  /** `RecordFlagEnum.values()[n]`: the flag with ordinal `n`; `None` stands
      for the ArrayIndexOutOfBoundsException any other index raises. */
  function FlagOfOrdinal(n: int): (r: Option<RecordFlag>)
    ensures r.Some? <==> 0 <= n < 2
    ensures r.Some? ==> r.value.Ordinal() == n
  {
    if n == 0 then Some(VALID) else if n == 1 then Some(INVALID) else None
  }

  const MAGIC_COOKIE: int := 513
  /** Length in bytes of a record's fields, the flag byte excluded. */
  const RECORD_LENGTH: int := 182
  const FLAG_LENGTH: int := 1
  const FIELDS_COUNT: int := 6

  const FIELD_NAME: string := "name"
  const FIELD_LOCATION: string := "location"
  const FIELD_SPECIALTIES: string := "specialties"
  const FIELD_SIZE: string := "size"
  const FIELD_RATE: string := "rate"
  const FIELD_OWNER: string := "owner"

  const FIELD_NAMES: seq<string> :=
    [FIELD_NAME, FIELD_LOCATION, FIELD_SPECIALTIES, FIELD_SIZE, FIELD_RATE, FIELD_OWNER]
  const FIELD_LENGTHS: seq<nat> := [32, 64, 64, 6, 8, 8]
  const FIELD_TYPES: seq<DBType> := [TEXT, TEXT, TEXT, INTEGER, MONEY, INTEGER]

  /** Record numbering starts here. */
  const FIRST_RECORD_NO: int := 1
  /** The id of a record that has not been stored. */
  const UNSAVED_RECORD_NO: int := FIRST_RECORD_NO - 1

  /** The sum of a sequence of widths. */
  function Sum(s: seq<int>): int {
    if s == [] then 0 else s[0] + Sum(s[1..])
  }

  /** `List.indexOf`: the first position holding `x`, or -1. */
  function IndexOf(s: seq<string>, x: string): (r: int)
    ensures -1 <= r < |s|
    ensures r >= 0 ==> s[r] == x && x !in s[..r]
    ensures r == -1 <==> x !in s
  {
    if s == [] then -1
    else if s[0] == x then 0
    else
      var k := IndexOf(s[1..], x);
      assert s[1..][..k + 1] == s[1..k + 2] by { if k >= 0 { } }
      if k == -1 then -1 else k + 1
  }

  /** `DBMetaInfo.getFieldNo`: the position of the field whose name equals
      the lower-cased argument, or -1 when no field has that name. */
  function GetFieldNo(fieldName: string): (r: int)
    ensures -1 <= r < FIELDS_COUNT
    ensures r >= 0 ==> FIELD_NAMES[r] == ToLowerCase(fieldName)
    ensures r == -1 <==> ToLowerCase(fieldName) !in FIELD_NAMES
  {
    IndexOf(FIELD_NAMES, ToLowerCase(fieldName))
  }

  /** `DBMetaInfo.getFieldType`: fields 0-2 hold text, 3 and 5 integers,
      4 money. */
  function GetFieldType(fieldNo: int): (t: DBType)
    requires 0 <= fieldNo < FIELDS_COUNT
    ensures t == TEXT <==> fieldNo < 3
    ensures t == INTEGER <==> fieldNo == 3 || fieldNo == 5
    ensures t == MONEY <==> fieldNo == 4
  {
    FIELD_TYPES[fieldNo]
  }

  /** The static initialiser of `FIELD_LENGTHS_MAP`: each field name mapped
      to its width. */
  method BuildFieldLengthsMap() returns (m: map<string, int>)
    ensures m.Keys == set i | 0 <= i < FIELDS_COUNT :: FIELD_NAMES[i]
    ensures forall i :: 0 <= i < FIELDS_COUNT ==> m[FIELD_NAMES[i]] == FIELD_LENGTHS[i]
  {
    m := map[];
    for i := 0 to FIELDS_COUNT
      invariant m.Keys == set j | 0 <= j < i :: FIELD_NAMES[j]
      invariant forall j :: 0 <= j < i ==> m[FIELD_NAMES[j]] == FIELD_LENGTHS[j]
    {
      m := m[FIELD_NAMES[i] := FIELD_LENGTHS[i]];
    }
  }

  /** The three schema tables are aligned: one entry per field. */
  lemma SchemaTablesAligned()
    ensures |FIELD_NAMES| == |FIELD_LENGTHS| == |FIELD_TYPES| == FIELDS_COUNT
  {
  }

  /** The field widths add up to the record length. */
  lemma RecordLengthIsSumOfFields()
    ensures Sum(FIELD_LENGTHS) == RECORD_LENGTH
  {
    var s := FIELD_LENGTHS;
    assert s[1..] == [64, 64, 6, 8, 8];
    assert s[1..][1..] == [64, 6, 8, 8];
    assert s[1..][1..][1..] == [6, 8, 8];
    assert s[1..][1..][1..][1..] == [8, 8];
    assert s[1..][1..][1..][1..][1..] == [8];
    assert s[1..][1..][1..][1..][1..][1..] == [];
  }

  lemma LowerCaseOfLowerCase(s: string)
    requires forall i :: 0 <= i < |s| ==> !('A' <= s[i] <= 'Z')
    ensures ToLowerCase(s) == s
  {
  }

  /** `getFieldNo(FIELD_NAMES[i]) == i`, whatever the letter case of the
      name passed in. */
  lemma GetFieldNoOfFieldName(i: int, fieldName: string)
    requires 0 <= i < FIELDS_COUNT
    requires ToLowerCase(fieldName) == FIELD_NAMES[i]
    ensures GetFieldNo(fieldName) == i
  {
    var r := GetFieldNo(fieldName);
    assert FIELD_NAMES[r] == FIELD_NAMES[i];
    assert FIELD_NAMES[..r + 1][r] == FIELD_NAMES[r];
    if r < i {
      assert FIELD_NAMES[i] in FIELD_NAMES[..i];
    }
    FieldNamesDistinct();
  }

  lemma FieldNamesDistinct()
    ensures forall i, j :: 0 <= i < j < FIELDS_COUNT ==> FIELD_NAMES[i] != FIELD_NAMES[j]
  {
    assert FIELD_NAME[0] == 'n' && FIELD_LOCATION[0] == 'l' && FIELD_SPECIALTIES[1] == 'p';
    assert FIELD_SIZE[0] == 's' && FIELD_RATE[0] == 'r' && FIELD_OWNER[0] == 'o';
  }

  /** Every field name is lower case, so it is found by its own name. */
  lemma GetFieldNoOfEachField(i: int)
    requires 0 <= i < FIELDS_COUNT
    ensures GetFieldNo(FIELD_NAMES[i]) == i
  {
    LowerCaseOfLowerCase(FIELD_NAMES[i]);
    GetFieldNoOfFieldName(i, FIELD_NAMES[i]);
  }
}
