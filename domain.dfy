/** The contractor domain object: its field values, its fixed-width text
    form (`toStrings`) and the inverse constructor from six strings, the
    identity part inherited from `Persistent` (id and flag), and the bean
    itself as a class whose setters pad and truncate. */
module Domain {
  import opened Wrappers
  import opened StringHelper
  import opened DBMetaInfo

  /** The hourly rate. The source parses it into a currency symbol and a
      double; here it is kept as the text it was given. */
  datatype Money = Money(text: string)

  /** `new Money(0, " ")`, written as `" " + 0.0`. */
  const ZERO_RATE: Money := Money(" 0.0")

  /** `Money.valueOf`: text shorter than three characters is rejected with
      IllegalArgumentException (`None`). */
  function MoneyValueOf(s: string): (r: Option<Money>)
    ensures r.Some? <==> |s| >= 3
    ensures r.Some? ==> r.value.text == s
  {
    if |s| < 3 then None else Some(Money(s))
  }

  /** The error a domain constructor raises: IllegalArgumentException. */
  datatype DomainError = IllegalArgument

  /** A snapshot of a `Contractor`: the `Persistent` part (id, flag) and the
      six business fields. */
  datatype ContractorValue = ContractorValue(
    id: int,
    flag: RecordFlag,
    name: string,
    location: string,
    specialties: string,
    size: Int32,
    rate: Money,
    owner: Int32)

  /** What the padded setters guarantee: the three text fields hold exactly
      their field width, without NUL characters. */
  predicate WellFormed(c: ContractorValue) {
    && |c.name| == FIELD_LENGTHS[0] && '\0' !in c.name
    && |c.location| == FIELD_LENGTHS[1] && '\0' !in c.location
    && |c.specialties| == FIELD_LENGTHS[2] && '\0' !in c.specialties
  }

  /** `Persistent.isStored`. */
  predicate Stored(c: ContractorValue) {
    c.id > UNSAVED_RECORD_NO
  }

  /** `Contractor.isAvailable`: nobody has booked the contractor. */
  predicate Available(c: ContractorValue) {
    c.owner == UNSAVED_RECORD_NO
  }

  /** `Contractor.equals`: same name, location and flag. */
  predicate SameRecord(a: ContractorValue, b: ContractorValue) {
    a.name == b.name && a.location == b.location && a.flag == b.flag
  }

  /** `new Contractor(name, location)` (and, with empty strings,
      `new Contractor()`). */
  function NewContractor(name: string, location: string): (c: ContractorValue)
    ensures WellFormed(c) && c.id == UNSAVED_RECORD_NO && c.flag == VALID
    ensures c.name == SetStringLength(name, FIELD_LENGTHS[0])
    ensures c.location == SetStringLength(location, FIELD_LENGTHS[1])
    ensures c.specialties == seq(FIELD_LENGTHS[2], _ => ' ')
    ensures Available(c) && !Stored(c)
  {
    ContractorValue(UNSAVED_RECORD_NO, VALID,
      SetStringLength(name, FIELD_LENGTHS[0]),
      SetStringLength(location, FIELD_LENGTHS[1]),
      SetStringLength("", FIELD_LENGTHS[2]),
      0, ZERO_RATE, UNSAVED_RECORD_NO)
  }

  /** `Contractor.toStrings`: the six fixed-width field texts. */
  function FieldStrings(c: ContractorValue): (r: seq<string>)
    ensures |r| == FIELDS_COUNT
    ensures forall i :: 3 <= i < FIELDS_COUNT ==> |r[i]| == FIELD_LENGTHS[i] && '\0' !in r[i]
    ensures WellFormed(c) ==> forall i :: 0 <= i < FIELDS_COUNT ==> |r[i]| == FIELD_LENGTHS[i]
  {
    var owner := ToString(c.owner, UNSAVED_RECORD_NO);
    [c.name, c.location, c.specialties,
     SetStringLength(Decimal(c.size), FIELD_LENGTHS[3]),
     SetStringLength(c.rate.text, FIELD_LENGTHS[4]),
     SetStringLength(owner, FIELD_LENGTHS[5])]
  }

  /** `new Contractor(String[])`: anything but six strings, or a rate text
      shorter than three characters, raises IllegalArgumentException. The
      new object is unsaved and valid; text fields are padded or cut, the
      size reads as 0 and the owner as unsaved when they do not parse. */
  function FromStrings(strings: seq<string>): (r: Result<ContractorValue, DomainError>)
    ensures r.Ok? <==> |strings| == FIELDS_COUNT && |strings[4]| >= 3
    ensures r.Ok? ==> WellFormed(r.value) && r.value.id == UNSAVED_RECORD_NO && r.value.flag == VALID
  {
    if |strings| != FIELDS_COUNT then Err(IllegalArgument)
    else
      match MoneyValueOf(strings[4])
      case None => Err(IllegalArgument)
      case Some(rate) =>
        Ok(ContractorValue(UNSAVED_RECORD_NO, VALID,
          SetStringLength(strings[0], FIELD_LENGTHS[0]),
          SetStringLength(strings[1], FIELD_LENGTHS[1]),
          SetStringLength(strings[2], FIELD_LENGTHS[2]),
          IntValue(strings[3]),
          rate,
          IntValueOr(strings[5], UNSAVED_RECORD_NO)))
  }

  // ---------------------------------------------------------------------
  // Lemmas about the value form
  // ---------------------------------------------------------------------

  /** `toStrings` gives six strings whose widths are the field widths and
      add up to the record length. */
  lemma FieldStringsFillRecord(c: ContractorValue)
    requires WellFormed(c)
    ensures var r := FieldStrings(c);
            |r| == FIELDS_COUNT &&
            |r[0]| + |r[1]| + |r[2]| + |r[3]| + |r[4]| + |r[5]| == RECORD_LENGTH
  {
  }

  /** `new Contractor(c.toStrings())` gives back name, location,
      specialties, size and owner of `c`, provided size and owner fit their
      fields; the copy is unsaved and valid, and its rate is the rate text
      cut or padded to the rate field. */
  lemma FromFieldStringsRoundTrip(c: ContractorValue)
    requires WellFormed(c)
    requires |Decimal(c.size)| <= FIELD_LENGTHS[3]
    requires |ToString(c.owner, UNSAVED_RECORD_NO)| <= FIELD_LENGTHS[5]
    ensures FromStrings(FieldStrings(c))
         == Ok(c.(id := UNSAVED_RECORD_NO, flag := VALID,
                  rate := Money(SetStringLength(c.rate.text, FIELD_LENGTHS[4]))))
  {
    var s := FieldStrings(c);
    SetStringLengthFixed(c.name);
    SetStringLengthFixed(c.location);
    SetStringLengthFixed(c.specialties);
    DecimalRoundTrip(c.size);
    TrimSetStringLength(Decimal(c.size), FIELD_LENGTHS[3]);
    IntValuePaddedRoundTrip(c.owner, UNSAVED_RECORD_NO, FIELD_LENGTHS[5]);
  }

  /** Writing a well-formed record out and reading it back keeps its
      name and location, the key of the store. */
  lemma TextsKeepKey(c: ContractorValue)
    requires WellFormed(c)
    ensures FromStrings(FieldStrings(c)).Ok?
    ensures FromStrings(FieldStrings(c)).value.name == c.name
    ensures FromStrings(FieldStrings(c)).value.location == c.location
  {
    SetStringLengthFixed(c.name);
    SetStringLengthFixed(c.location);
  }

  /** The field texts survive a pass through `new Contractor(String[])`
      unchanged, whatever the values: a size or owner too wide for its field
      is cut on the way out, and the cut text reads back as a number that is
      written out as the same text. */
  lemma FieldStringsStable(c: ContractorValue)
    requires WellFormed(c)
    ensures FromStrings(FieldStrings(c)).Ok?
    ensures FieldStrings(FromStrings(FieldStrings(c)).value) == FieldStrings(c)
  {
    var s := FieldStrings(c);
    var d := FromStrings(s).value;
    SetStringLengthFixed(c.name);
    SetStringLengthFixed(c.location);
    SetStringLengthFixed(c.specialties);
    SetStringLengthIdempotent(c.rate.text, FIELD_LENGTHS[4]);
    DecimalFieldStable(c.size, FIELD_LENGTHS[3]);
    assert d.size == ParseInt(Trim(s[3])).value;
    OwnerFieldStable(c.owner);
    assert FieldStrings(d)[5] == s[5];
  }

  lemma OwnerFieldStable(owner: Int32)
    ensures var t := SetStringLength(ToString(owner, UNSAVED_RECORD_NO), FIELD_LENGTHS[5]);
            SetStringLength(ToString(IntValueOr(t, UNSAVED_RECORD_NO), UNSAVED_RECORD_NO), FIELD_LENGTHS[5]) == t
  {
    var t := SetStringLength(ToString(owner, UNSAVED_RECORD_NO), FIELD_LENGTHS[5]);
    if owner == UNSAVED_RECORD_NO {
      IntValueOfBlank(t, UNSAVED_RECORD_NO);
    } else {
      DecimalFieldStable(owner, FIELD_LENGTHS[5]);
    }
  }

  /** `toStrings()[5]` is blank exactly when nobody owns the record. */
  lemma OwnerFieldBlank(c: ContractorValue)
    ensures AllTrimmable(FieldStrings(c)[5]) <==> Available(c)
  {
    var owner := ToString(c.owner, UNSAVED_RECORD_NO);
    if owner != [] {
      assert FieldStrings(c)[5][0] == owner[0];
    }
  }

  /** `equals` is an equivalence relation. */
  lemma SameRecordIsEquivalence(a: ContractorValue, b: ContractorValue, c: ContractorValue)
    ensures SameRecord(a, a)
    ensures SameRecord(a, b) ==> SameRecord(b, a)
    ensures SameRecord(a, b) && SameRecord(b, c) ==> SameRecord(a, c)
  {
  }

  /** `equals` ignores specialties, size, rate, owner and id. */
  lemma SameRecordIgnoresDetails(a: ContractorValue, specialties: string, size: Int32,
                                 rate: Money, owner: Int32, id: int)
    ensures SameRecord(a, a.(specialties := specialties, size := size, rate := rate,
                             owner := owner, id := id))
  {
  }

  // ---------------------------------------------------------------------
  // The bean
  // ---------------------------------------------------------------------

  /** `Contractor` with the `Persistent` fields it inherits. */
  class Contractor {
    var id: int
    var flag: RecordFlag
    var location: string
    var name: string
    var owner: Int32
    var rate: Money
    var size: Int32
    var specialties: string

    /** The snapshot of the current field values. */
    function Value(): ContractorValue
      reads this
    {
      ContractorValue(id, flag, name, location, specialties, size, rate, owner)
    }

    ghost predicate Valid()
      reads this
    {
      WellFormed(Value())
    }

    /** `new Contractor(name, location)`: the `Persistent` constructor sets
        the flag VALID and the id unsaved; specialties become all spaces,
        the owner unsaved. */
    constructor (name: string, location: string)
      ensures Valid() && Value() == NewContractor(name, location)
    {
      this.id := UNSAVED_RECORD_NO;
      this.flag := VALID;
      this.owner := UNSAVED_RECORD_NO;
      this.size := 0;
      this.name := SetStringLength(name, FIELD_LENGTHS[0]);
      this.location := SetStringLength(location, FIELD_LENGTHS[1]);
      this.specialties := SetStringLength("", FIELD_LENGTHS[2]);
      this.rate := ZERO_RATE;
    }

    /** `new Contractor()`. */
    constructor Empty()
      ensures Valid() && Value() == NewContractor("", "")
    {
      this.id := UNSAVED_RECORD_NO;
      this.flag := VALID;
      this.owner := UNSAVED_RECORD_NO;
      this.size := 0;
      this.name := SetStringLength("", FIELD_LENGTHS[0]);
      this.location := SetStringLength("", FIELD_LENGTHS[1]);
      this.specialties := SetStringLength("", FIELD_LENGTHS[2]);
      this.rate := ZERO_RATE;
    }

    /** `new Contractor(String[])`: rejects anything but six strings (and a
        rate text `Money.valueOf` refuses) before any field is set, then
        runs the setters in the source's order. */
    static method OfStrings(strings: seq<string>) returns (r: Result<Contractor, DomainError>)
      ensures FromStrings(strings).Err? ==> r == Err(FromStrings(strings).error)
      ensures FromStrings(strings).Ok? ==>
                r.Ok? && fresh(r.value) && r.value.Valid() && r.value.Value() == FromStrings(strings).value
    {
      if |strings| != FIELDS_COUNT {
        return Err(IllegalArgument);
      }
      var c := new Contractor("", "");
      c.SetName(strings[0]);
      c.SetLocation(strings[1]);
      c.SetSpecialties(strings[2]);
      c.SetSize(IntValue(strings[3]));
      var rate := MoneyValueOf(strings[4]);
      if rate.None? {
        return Err(IllegalArgument);
      }
      c.SetRate(rate.value);
      c.SetOwner(IntValueOr(strings[5], UNSAVED_RECORD_NO));
      r := Ok(c);
    }

    method SetName(name: string)
      modifies this
      ensures Value() == old(Value()).(name := SetStringLength(name, FIELD_LENGTHS[0]))
      ensures old(Valid()) ==> Valid()
    {
      this.name := SetStringLength(name, FIELD_LENGTHS[0]);
    }

    method SetLocation(location: string)
      modifies this
      ensures Value() == old(Value()).(location := SetStringLength(location, FIELD_LENGTHS[1]))
      ensures old(Valid()) ==> Valid()
    {
      this.location := SetStringLength(location, FIELD_LENGTHS[1]);
    }

    method SetSpecialties(specialties: string)
      modifies this
      ensures Value() == old(Value()).(specialties := SetStringLength(specialties, FIELD_LENGTHS[2]))
      ensures old(Valid()) ==> Valid()
    {
      this.specialties := SetStringLength(specialties, FIELD_LENGTHS[2]);
    }

    method SetSize(size: Int32)
      modifies this
      ensures Value() == old(Value()).(size := size)
    {
      this.size := size;
    }

    method SetRate(rate: Money)
      modifies this
      ensures Value() == old(Value()).(rate := rate)
    {
      this.rate := rate;
    }

    method SetOwner(owner: Int32)
      modifies this
      ensures Value() == old(Value()).(owner := owner)
    {
      this.owner := owner;
    }

    /** `free()`: the contractor becomes available; nothing else changes. */
    method Free()
      modifies this
      ensures Value() == old(Value()).(owner := UNSAVED_RECORD_NO)
      ensures IsAvailable()
    {
      owner := UNSAVED_RECORD_NO;
    }

    /** `Persistent.setId`: the flag is left alone. */
    method SetId(id: int)
      modifies this
      ensures Value() == old(Value()).(id := id)
      ensures this.id == id && flag == old(flag)
    {
      this.id := id;
    }

    /** `Persistent.setFlag`: the id is left alone. */
    method SetFlag(flag: RecordFlag)
      modifies this
      ensures Value() == old(Value()).(flag := flag)
      ensures this.flag == flag && id == old(id)
    {
      this.flag := flag;
    }

    predicate IsAvailable()
      reads this
    {
      Available(Value())
    }

    predicate IsStored()
      reads this
    {
      Stored(Value())
    }

    predicate Equals(other: Contractor)
      reads this, other
    {
      SameRecord(Value(), other.Value())
    }

    /** `toStrings()`: a new array, filled slot by slot. */
    method ToStrings() returns (strings: array<string>)
      ensures fresh(strings) && strings[..] == FieldStrings(Value())
    {
      strings := new string[FIELDS_COUNT];
      strings[0] := name;
      strings[1] := location;
      strings[2] := specialties;
      strings[3] := SetStringLength(Decimal(size), FIELD_LENGTHS[3]);
      strings[4] := SetStringLength(rate.text, FIELD_LENGTHS[4]);
      strings[5] := SetStringLength(ToString(owner, UNSAVED_RECORD_NO), FIELD_LENGTHS[5]);
    }
  }

  /** `Persistent()` and the field initialiser: a new object is valid and
      unsaved, hence not stored. */
  method NewObjectIsUnsaved() returns (c: Contractor)
    ensures fresh(c) && c.flag == VALID && c.id == UNSAVED_RECORD_NO && !c.IsStored()
  {
    c := new Contractor.Empty();
  }
}
