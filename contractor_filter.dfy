/** The search filter the contractors window keeps: the contractor whose
    field texts are the patterns, one comparison operator per field, and
    which contractors to show by booking state. */
module ContractorGui {
  import opened Wrappers
  import opened StringHelper
  import opened DBMetaInfo
  import opened Domain
  import opened Comparators
  import opened Dao

  /** `ContractorFilter.Availability`. */
  datatype Availability = ALL | AVAILABLE | BOOKED | BOOKED_FOR

  /** The operators a new filter starts with: CONTAINS for the
      specialties, at least the size and the rate, and STARTS_WITH for the
      name, location and owner. */
  const DEFAULT_OPERATORS: seq<ComparisonOperator> :=
    [STARTS_WITH, STARTS_WITH, CONTAINS, GREATER_OR_EQUAL, GREATER_OR_EQUAL, STARTS_WITH]

  /** The field names that `getFieldNo` finds, whatever their letter case. */
  predicate KnownField(fieldName: string) {
    ToLowerCase(fieldName) in FIELD_NAMES
  }

  class ContractorFilter {
    var availability: Availability
    var contractor: Contractor
    const operators: array<ComparisonOperator>

    ghost predicate Valid()
      reads this
    {
      operators.Length == FIELDS_COUNT
    }

    /** `new ContractorFilter()`: an empty contractor, availability ALL,
        and every operator STARTS_WITH but those of the specialties
        (CONTAINS), the size and the rate (GREATER_OR_EQUAL). */
    constructor ()
      ensures Valid() && fresh(operators) && fresh(contractor)
      ensures availability == ALL
      ensures contractor.Value() == NewContractor("", "")
      ensures operators[..] == DEFAULT_OPERATORS
    {
      availability := ALL;
      contractor := new Contractor.Empty();
      var ops := new ComparisonOperator[FIELDS_COUNT](_ => STARTS_WITH);
      GetFieldNoOfEachField(2);
      GetFieldNoOfEachField(3);
      GetFieldNoOfEachField(4);
      ops[GetFieldNo(FIELD_SPECIALTIES)] := CONTAINS;
      ops[GetFieldNo(FIELD_SIZE)] := GREATER_OR_EQUAL;
      ops[GetFieldNo(FIELD_RATE)] := GREATER_OR_EQUAL;
      operators := ops;
    }

    /** `new ContractorFilter(contractor)`: the defaults, with the given
        contractor object itself (not a copy) holding the patterns. */
    constructor WithContractor(contractor: Contractor)
      ensures Valid() && fresh(operators)
      ensures availability == ALL
      ensures this.contractor == contractor
      ensures operators[..] == DEFAULT_OPERATORS
    {
      availability := ALL;
      // The empty contractor `this()` makes is replaced straight away.
      var ops := new ComparisonOperator[FIELDS_COUNT](_ => STARTS_WITH);
      GetFieldNoOfEachField(2);
      GetFieldNoOfEachField(3);
      GetFieldNoOfEachField(4);
      ops[GetFieldNo(FIELD_SPECIALTIES)] := CONTAINS;
      ops[GetFieldNo(FIELD_SIZE)] := GREATER_OR_EQUAL;
      ops[GetFieldNo(FIELD_RATE)] := GREATER_OR_EQUAL;
      operators := ops;
      this.contractor := contractor;
    }

    /** `getAvailability()`. */
    function GetAvailability(): (a: Availability)
      reads this
      ensures a == availability
    {
      availability
    }

    /** `setAvailability(availability)`: nothing else changes. */
    method SetAvailability(availability: Availability)
      modifies this
      ensures this.availability == availability
      ensures contractor == old(contractor)
    {
      this.availability := availability;
    }

    /** `getContractor()`: the object itself, so changes through it show in
        the filter. */
    function GetContractor(): (c: Contractor)
      reads this
      ensures c == contractor
    {
      contractor
    }

    /** `getFilter()`: the contractor's `toStrings()`, a new array. */
    method GetFilter() returns (filter: array<string>)
      ensures fresh(filter)
      ensures filter[..] == FieldStrings(contractor.Value())
    {
      filter := contractor.ToStrings();
    }

    /** `getOperator(fieldName)`: the operator of the field so named, in
        any letter case; any other name makes `getFieldNo` give -1 and the
        array access raise ArrayIndexOutOfBoundsException, here None. */
    function GetOperator(fieldName: string): (r: Option<ComparisonOperator>)
      requires Valid()
      reads this, operators
      ensures r.None? <==> !KnownField(fieldName)
      ensures r.Some? ==> exists i :: 0 <= i < FIELDS_COUNT && FIELD_NAMES[i] == ToLowerCase(fieldName)
                                      && r.value == operators[i]
    {
      var i := GetFieldNo(fieldName);
      if i == -1 then None else Some(operators[i])
    }

    /** `setOperator(fieldName, operator)`: the field's operator becomes
        `operator` and every other operator stays; an unknown name raises
        ArrayIndexOutOfBoundsException (`ok` false) and changes nothing. */
    method SetOperator(fieldName: string, operator: ComparisonOperator) returns (ok: bool)
      requires Valid()
      modifies operators
      ensures ok <==> KnownField(fieldName)
      ensures !ok ==> operators[..] == old(operators[..])
      ensures ok ==> operators[..] == old(operators[..])[GetFieldNo(fieldName) := operator]
      ensures ok ==> GetOperator(fieldName) == Some(operator)
      ensures forall other :: ToLowerCase(other) != ToLowerCase(fieldName) ==>
                GetOperator(other) == old(GetOperator(other))
    {
      var i := GetFieldNo(fieldName);
      if i == -1 {
        return false;
      }
      operators[i] := operator;
      ok := true;
    }

    /** `getOperators()`: a copy; writing to it leaves the filter alone. */
    method GetOperators() returns (copy: array<ComparisonOperator>)
      ensures fresh(copy)
      ensures copy[..] == operators[..]
    {
      copy := new ComparisonOperator[operators.Length](i reads operators requires 0 <= i < operators.Length
                                                         => operators[i]);
    }
  }

  /** Of a new filter's patterns, `load` hands `find` only the name,
      location and owner; the specialties, size and rate are decided by the
      comparators. */
  lemma DefaultFilterForwardsPrefixFields(filter: seq<Option<string>>)
    requires |filter| == FIELDS_COUNT
    ensures Forwarded(filter, DEFAULT_OPERATORS)
         == [filter[0], filter[1], None, None, None, filter[5]]
  {
  }

  /** A new filter's blank specialties pattern lets every contractor
      through its CONTAINS test. */
  lemma DefaultSpecialtiesAcceptAll(c: ContractorValue, specialtiesPattern: string,
                                    amountOrder: (Money, Money) -> int)
    requires Trim(specialtiesPattern) == []
    ensures FieldSatisfies(TextComparator, FieldStrings(c)[2], specialtiesPattern,
                           DEFAULT_OPERATORS[2], amountOrder) == Ok(true)
  {
    BlankPatternIsContained(TextComparator, FieldStrings(c)[2], specialtiesPattern, amountOrder);
  }
}
