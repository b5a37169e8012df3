/** The local data access object over the record store: look-ups by number,
    the two-stage search (the store's own prefix `find` on the STARTS_WITH
    fields, then each remaining field checked with its comparison operator
    under the comparator for its type), and create, update and delete with
    the store's exceptions translated into the DAO's. */
module Dao {
  import opened Wrappers
  import opened StringHelper
  import opened DBMetaInfo
  import opened Domain
  import opened Bytes
  import opened Storage
  import opened Db
  import opened Comparators

  /** `ComparisonOperator`. */
  datatype ComparisonOperator =
    EQUAL | GREATER | GREATER_OR_EQUAL | LESS | LESS_OR_EQUAL | CONTAINS | STARTS_WITH | NOT_EQUAL

  /** The exceptions the DAO raises. */
  datatype DaoError =
    | Initialization(cause: InitError)   // DaoInitializationException
    | Finder                             // DaoFinderException
    | StaleObject                        // DaoStaleObjectException
    | Duplicate                          // DaoDuplicateException
    | Failure                            // DaoException
    | IllegalArgument                    // IllegalArgumentException, not caught
    | CorruptFile                        // the store's flag error, not caught

  // ---------------------------------------------------------------------
  // One field against one pattern
  // ---------------------------------------------------------------------

  /** The distinct tokens of comma-separated pieces: each non-blank piece,
      trimmed and upper-cased. */
  function Tokens(pieces: seq<string>): set<string>
    decreases |pieces|
  {
    if pieces == [] then {}
    else
      var last := Trim(pieces[|pieces| - 1]);
      Tokens(pieces[..|pieces| - 1]) + (if |last| > 0 then {ToUpperCase(last)} else {})
  }

  function TokensOf(s: string): set<string> {
    Tokens(SplitComma(s))
  }

  /** The comparison operators on a comparator result `c`; the other two
      operators hold for no `c`. */
  predicate OperatorHolds(operator: ComparisonOperator, c: int) {
    match operator
    case LESS => c < 0
    case LESS_OR_EQUAL => c <= 0
    case EQUAL => c == 0
    case GREATER_OR_EQUAL => c >= 0
    case GREATER => c > 0
    case NOT_EQUAL => c != 0
    case CONTAINS => false
    case STARTS_WITH => false
  }

  /** `matches(comparator, arg1, arg2, operator)`: CONTAINS asks whether
      every token of the pattern `arg2` is a token of `arg1`; STARTS_WITH is
      not handled here and gives false; the rest compare `arg1` with `arg2`
      (which only the money comparator can refuse). */
  function FieldSatisfies(kind: ComparatorKind, arg1: string, arg2: string,
                          operator: ComparisonOperator, amountOrder: (Money, Money) -> int)
    : Result<bool, DomainError>
  {
    if operator == CONTAINS then Ok(TokensOf(arg2) <= TokensOf(arg1))
    else if operator == STARTS_WITH then Ok(false)
    else
      match CompareAs(kind, arg1, arg2, amountOrder)
      case Err(e) => Err(e)
      case Ok(c) => Ok(OperatorHolds(operator, c))
  }

  /** `t` is one of the pieces, trimmed and upper-cased, that is not
      blank. */
  predicate IsTokenOf(pieces: seq<string>, t: string) {
    exists i :: 0 <= i < |pieces| && Trim(pieces[i]) != [] && ToUpperCase(Trim(pieces[i])) == t
  }

  /** The tokens are exactly the non-blank pieces, trimmed and
      upper-cased. */
  lemma {:induction false} TokensMembership(pieces: seq<string>, t: string)
    ensures t in Tokens(pieces) <==> IsTokenOf(pieces, t)
    decreases |pieces|
  {
    if pieces != [] {
      var init := pieces[..|pieces| - 1];
      TokensMembership(init, t);
      assert forall i :: 0 <= i < |init| ==> init[i] == pieces[i];
    }
  }

  /** Every non-blank piece of `pattern`, trimmed and upper-cased, is a
      token of `field`. */
  predicate TokensCovered(field: seq<string>, pattern: seq<string>) {
    forall i :: 0 <= i < |pattern| && Trim(pattern[i]) != [] ==> IsTokenOf(field, ToUpperCase(Trim(pattern[i])))
  }

  /** CONTAINS holds iff every non-blank piece of the pattern, trimmed and
      upper-cased, equals some non-blank piece of the field, trimmed and
      upper-cased. */
  lemma ContainsIffTokensIncluded(kind: ComparatorKind, arg1: string, arg2: string,
                                  amountOrder: (Money, Money) -> int)
    ensures FieldSatisfies(kind, arg1, arg2, CONTAINS, amountOrder)
         == Ok(TokensCovered(SplitComma(arg1), SplitComma(arg2)))
  {
    var p1, p2 := SplitComma(arg1), SplitComma(arg2);
    if TokensCovered(p1, p2) {
      forall t | t in Tokens(p2) ensures t in Tokens(p1) {
        TokensMembership(p2, t);
        TokensMembership(p1, t);
      }
      assert Tokens(p2) <= Tokens(p1);
    }
    if Tokens(p2) <= Tokens(p1) {
      forall i | 0 <= i < |p2| && Trim(p2[i]) != [] ensures IsTokenOf(p1, ToUpperCase(Trim(p2[i]))) {
        var t := ToUpperCase(Trim(p2[i]));
        TokensMembership(p2, t);
        TokensMembership(p1, t);
      }
      assert TokensCovered(p1, p2);
    }
    assert (Tokens(p2) <= Tokens(p1)) == TokensCovered(p1, p2);
  }

  /** A blank pattern is contained in every field. */
  lemma BlankPatternIsContained(kind: ComparatorKind, arg1: string, arg2: string,
                                amountOrder: (Money, Money) -> int)
    requires Trim(arg2) == []
    ensures FieldSatisfies(kind, arg1, arg2, CONTAINS, amountOrder) == Ok(true)
  {
    TrimEmptyIsBlank(arg2);
    assert ',' !in arg2 by {
      assert forall i :: 0 <= i < |arg2| ==> IsTrimmable(arg2[i]);
    }
    SplitCommaWithoutComma(arg2);
    TrimEmptyIsBlank(arg2);
    forall t ensures t !in Tokens([arg2]) {
      TokensMembership([arg2], t);
    }
  }

  /** For the text and integer comparators, swapping the operands turns
      `<` into `>` and `<=` into `>=`, and leaves `=` and `!=` alone. */
  lemma ComparisonsMirror(kind: ComparatorKind, a: string, b: string, amountOrder: (Money, Money) -> int)
    requires kind != MoneyComparator
    ensures FieldSatisfies(kind, a, b, LESS, amountOrder) == FieldSatisfies(kind, b, a, GREATER, amountOrder)
    ensures FieldSatisfies(kind, a, b, LESS_OR_EQUAL, amountOrder)
         == FieldSatisfies(kind, b, a, GREATER_OR_EQUAL, amountOrder)
    ensures FieldSatisfies(kind, a, b, EQUAL, amountOrder) == FieldSatisfies(kind, b, a, EQUAL, amountOrder)
    ensures FieldSatisfies(kind, a, b, NOT_EQUAL, amountOrder)
         == FieldSatisfies(kind, b, a, NOT_EQUAL, amountOrder)
  {
    TextCompareAntisymmetric(a, b);
    IntegerCompareAntisymmetric(a, b);
  }

  /** EQUAL on a text field is equality up to letter case; in particular a
      pattern not exactly as long as the padded field never equals it. */
  lemma TextEqualIgnoresCaseOnly(a: string, b: string, amountOrder: (Money, Money) -> int)
    ensures FieldSatisfies(TextComparator, a, b, EQUAL, amountOrder) == Ok(ToUpperCase(a) == ToUpperCase(b))
    ensures |a| != |b| ==> FieldSatisfies(TextComparator, a, b, EQUAL, amountOrder) == Ok(false)
  {
    TextCompareZeroIff(a, b);
    assert |ToUpperCase(a)| == |a| && |ToUpperCase(b)| == |b|;
  }

  // ---------------------------------------------------------------------
  // A record against the whole filter
  // ---------------------------------------------------------------------

  /** The loop of `matches(record, filter, operators)` from field `i` on
      over the record's texts `strings`: fields whose operator is
      STARTS_WITH or whose pattern is `null` are skipped; the first field
      that fails ends the loop with false, the first comparator that raises
      ends it with that exception. */
  function FilterFrom(strings: seq<string>, filter: seq<Option<string>>, operators: seq<ComparisonOperator>,
                      amountOrder: (Money, Money) -> int, i: nat): Result<bool, DomainError>
    requires |strings| == |filter| == FIELDS_COUNT && |operators| >= |filter| && i <= |filter|
    decreases |filter| - i
  {
    if i == |filter| then Ok(true)
    else if operators[i] == STARTS_WITH || filter[i].None? then
      FilterFrom(strings, filter, operators, amountOrder, i + 1)
    else
      match FieldSatisfies(KindFor(GetFieldType(i)), strings[i], filter[i].value, operators[i], amountOrder)
      case Err(e) => Err(e)
      case Ok(holds) => if holds then FilterFrom(strings, filter, operators, amountOrder, i + 1) else Ok(false)
  }

  /** `matches(record, filter, operators)`. */
  function PassesFilter(record: ContractorValue, filter: seq<Option<string>>,
                        operators: seq<ComparisonOperator>, amountOrder: (Money, Money) -> int)
    : Result<bool, DomainError>
    requires |filter| == FIELDS_COUNT && |operators| >= |filter|
  {
    FilterFrom(FieldStrings(record), filter, operators, amountOrder, 0)
  }

  /** A field the loop checks: its operator is not STARTS_WITH and it has a
      pattern. */
  predicate Checked(filter: seq<Option<string>>, operators: seq<ComparisonOperator>, i: int)
    requires |operators| >= |filter|
  {
    0 <= i < |filter| && operators[i] != STARTS_WITH && filter[i].Some?
  }

  /** The loop succeeds from `i` on exactly when every checked field from
      `i` on satisfies its operator. */
  lemma {:induction false} FilterFromIff(strings: seq<string>, filter: seq<Option<string>>,
                                         operators: seq<ComparisonOperator>,
                                         amountOrder: (Money, Money) -> int, i: nat)
    requires |strings| == |filter| == FIELDS_COUNT && |operators| >= |filter| && i <= |filter|
    ensures FilterFrom(strings, filter, operators, amountOrder, i) == Ok(true) <==>
              forall j :: i <= j && Checked(filter, operators, j) ==>
                FieldSatisfies(KindFor(GetFieldType(j)), strings[j], filter[j].value, operators[j], amountOrder)
                == Ok(true)
    decreases |filter| - i
  {
    if i < |filter| {
      FilterFromIff(strings, filter, operators, amountOrder, i + 1);
    }
  }

  /** A record passes the filter exactly when every field whose operator
      is not STARTS_WITH and whose pattern is not `null` satisfies that
      operator under the comparator of the field's type. */
  lemma PassesFilterIff(record: ContractorValue, filter: seq<Option<string>>,
                        operators: seq<ComparisonOperator>, amountOrder: (Money, Money) -> int)
    requires |filter| == FIELDS_COUNT && |operators| >= |filter|
    ensures PassesFilter(record, filter, operators, amountOrder) == Ok(true) <==>
              forall j :: Checked(filter, operators, j) ==>
                FieldSatisfies(KindFor(GetFieldType(j)), FieldStrings(record)[j], filter[j].value,
                               operators[j], amountOrder) == Ok(true)
  {
    FilterFromIff(FieldStrings(record), filter, operators, amountOrder, 0);
  }

  /** A filter with only STARTS_WITH operators lets every record pass. */
  lemma StartsWithOnlyPassesAll(record: ContractorValue, filter: seq<Option<string>>,
                                operators: seq<ComparisonOperator>, amountOrder: (Money, Money) -> int)
    requires |filter| == FIELDS_COUNT && |operators| >= |filter|
    requires forall i :: 0 <= i < |filter| ==> operators[i] == STARTS_WITH
    ensures PassesFilter(record, filter, operators, amountOrder) == Ok(true)
  {
    PassesFilterIff(record, filter, operators, amountOrder);
  }

  // ---------------------------------------------------------------------
  // load(filter, operators)
  // ---------------------------------------------------------------------

  /** The criteria handed to `find`: the patterns of the STARTS_WITH
      fields, `null` elsewhere. */
  function Forwarded(filter: seq<Option<string>>, operators: seq<ComparisonOperator>)
    : (criteria: seq<Option<string>>)
    requires |operators| >= |filter|
    ensures |criteria| == |filter|
  {
    seq(|filter|, i requires 0 <= i < |filter| => if operators[i] == STARTS_WITH then filter[i] else None)
  }

  /** `new Contractor(db.read(id))` followed by `setId(id)`. */
  function Loaded(recordMap: Records, id: int): (c: ContractorValue)
    requires id in recordMap
    ensures c.id == id && c.flag == VALID && WellFormed(c)
  {
    FromStrings(FieldStrings(recordMap[id])).value.(id := id)
  }

  /** What `findById(id)` answers as written: the record read under `id`,
      rebuilt by `new Contractor(String[])` and left with the unsaved
      number, or DaoFinderException. */
  function FoundById(recordMap: Records, id: int): (r: Result<ContractorValue, DaoError>)
    ensures r.Ok? <==> ReadRecordSpec(recordMap, id).Ok?
    ensures r.Err? ==> r.error == Finder
  {
    if ReadRecordSpec(recordMap, id).Err? then Err(Finder)
    else Ok(Loaded(recordMap, id).(id := UNSAVED_RECORD_NO))
  }

  /** `findById(id)` as its interface promises, the persistent object with
      the given id: the rebuilt record keeps the number it was found by. */
  function FoundByIdKeepingId(recordMap: Records, id: int): (r: Result<ContractorValue, DaoError>)
    ensures r.Ok? <==> ReadRecordSpec(recordMap, id).Ok?
    ensures r.Err? ==> r.error == Finder
  {
    if ReadRecordSpec(recordMap, id).Err? then Err(Finder)
    else Ok(Loaded(recordMap, id))
  }

  /** The record `findById` finds, as written, is not the persistent object
      with that id: it is unsaved, and the store knows no record under its
      number, so updating it with its own texts reports RecordNotFound. */
  lemma FoundByIdIsUnsaved(recordMap: Records, invalidRecordMap: Records, id: int, ioFault: bool)
    requires ContiguousIds(recordMap) && FoundById(recordMap, id).Ok?
    ensures var v := FoundById(recordMap, id).value;
            && v.id != id && !Stored(v)
            && ReadRecordSpec(recordMap, v.id) == Err(RecordNotFound(None))
            && UpdateAnswer(recordMap, invalidRecordMap, v.id, FieldStrings(v), ioFault) == Fail(RecordNotFound(None))
  {
    KeptRecordsAreSaved(recordMap);
  }

  /** The corrected `findById` gives back a saved record under the number
      asked for, which reads back from the store, with the texts stored
      there. */
  lemma FoundByIdKeepingIdIsStored(recordMap: Records, id: int)
    requires ContiguousIds(recordMap) && FoundByIdKeepingId(recordMap, id).Ok?
    ensures var v := FoundByIdKeepingId(recordMap, id).value;
            && v.id == id && Stored(v)
            && ReadRecordSpec(recordMap, v.id).Ok?
            && (WellFormed(recordMap[id]) ==> FieldStrings(v) == FieldStrings(recordMap[id]))
  {
    KeptRecordsAreSaved(recordMap);
    if WellFormed(recordMap[id]) {
      FieldStringsStable(recordMap[id]);
    }
  }

  /** What one pass of the loop of `load` does with one number: the number
      cannot be read, or a comparator raises, or the record is read and
      passes or fails the filter. */
  datatype Step = Unreadable | Raised | Read(record: ContractorValue, passes: bool)

  function StepOf(recordMap: Records, id: int, filter: seq<Option<string>>,
                  operators: seq<ComparisonOperator>, amountOrder: (Money, Money) -> int): Step
    requires |filter| == FIELDS_COUNT && |operators| >= |filter|
  {
    if id !in recordMap || recordMap[id].flag == INVALID then Unreadable
    else
      match PassesFilter(Loaded(recordMap, id), filter, operators, amountOrder)
      case Err(_) => Raised
      case Ok(passes) => Read(Loaded(recordMap, id), passes)
  }

  function LoadSteps(recordMap: Records, ids: seq<int>, filter: seq<Option<string>>,
                     operators: seq<ComparisonOperator>, amountOrder: (Money, Money) -> int)
    : (steps: seq<Step>)
    requires |filter| == FIELDS_COUNT && |operators| >= |filter|
    ensures |steps| == |ids|
    ensures forall k :: 0 <= k < |ids| ==> steps[k] == StepOf(recordMap, ids[k], filter, operators, amountOrder)
  {
    seq(|ids|, k requires 0 <= k < |ids| => StepOf(recordMap, ids[k], filter, operators, amountOrder))
  }

  /** The loop of `load` over its steps: the first unreadable number gives
      DaoException, the first comparator exception escapes, and the records
      that pass are kept in order. */
  function Keep(steps: seq<Step>): Result<seq<ContractorValue>, DaoError>
    decreases |steps|
  {
    if steps == [] then Ok([])
    else
      match Keep(steps[..|steps| - 1])
      case Err(e) => Err(e)
      case Ok(prefix) =>
        match steps[|steps| - 1]
        case Unreadable => Err(Failure)
        case Raised => Err(DaoError.IllegalArgument)
        case Read(record, passes) => if passes then Ok(prefix + [record]) else Ok(prefix)
  }

  /** The loop of `load` over the numbers `find` gave. */
  function KeptRecords(recordMap: Records, ids: seq<int>, filter: seq<Option<string>>,
                       operators: seq<ComparisonOperator>, amountOrder: (Money, Money) -> int)
    : Result<seq<ContractorValue>, DaoError>
    requires |filter| == FIELDS_COUNT && |operators| >= |filter|
  {
    Keep(LoadSteps(recordMap, ids, filter, operators, amountOrder))
  }

  /** `Keep` over one more step. */
  lemma KeepStep(steps: seq<Step>, k: nat)
    requires k < |steps|
    ensures Keep(steps[..k + 1]) ==
              match Keep(steps[..k])
              case Err(e) => Err(e)
              case Ok(prefix) =>
                match steps[k]
                case Unreadable => Err(Failure)
                case Raised => Err(DaoError.IllegalArgument)
                case Read(record, passes) => if passes then Ok(prefix + [record]) else Ok(prefix)
  {
    assert steps[..k + 1][..k] == steps[..k];
  }

  /** An exception on some prefix of the steps ends the whole loop with
      it. */
  lemma {:induction false} KeepPrefixError(steps: seq<Step>, k: nat)
    requires k <= |steps| && Keep(steps[..k]).Err?
    ensures Keep(steps) == Keep(steps[..k])
    decreases |steps|
  {
    if k < |steps| {
      var init := steps[..|steps| - 1];
      assert init[..k] == steps[..k];
      KeepPrefixError(init, k);
    } else {
      assert steps[..k] == steps;
    }
  }

  /** What the loop keeps are the records of passing steps. */
  lemma {:induction false} KeepSound(steps: seq<Step>, list: seq<ContractorValue>, k: nat) returns (i: nat)
    requires Keep(steps) == Ok(list) && k < |list|
    ensures i < |steps| && steps[i] == Read(list[k], true)
    decreases |steps|
  {
    var init := steps[..|steps| - 1];
    var prefix := Keep(init).value;
    if k < |prefix| {
      i := KeepSound(init, prefix, k);
    } else {
      i := |steps| - 1;
    }
  }

  /** Once the loop succeeds, every step read its record, and each passing
      one is kept. */
  lemma {:induction false} KeepComplete(steps: seq<Step>, list: seq<ContractorValue>, j: nat)
    requires Keep(steps) == Ok(list) && j < |steps|
    ensures steps[j].Read?
    ensures steps[j].passes ==> steps[j].record in list
    decreases |steps|
  {
    var init := steps[..|steps| - 1];
    var prefix := Keep(init).value;
    if j < |steps| - 1 {
      KeepComplete(init, prefix, j);
      assert init[j] == steps[j];
    }
  }

  /** When every step reads a passing record, all of them are kept, in
      order. */
  lemma {:induction false} KeepAllPassing(steps: seq<Step>)
    requires forall k :: 0 <= k < |steps| ==> steps[k].Read? && steps[k].passes
    ensures Keep(steps).Ok? && |Keep(steps).value| == |steps|
    ensures forall k :: 0 <= k < |steps| ==> Keep(steps).value[k] == steps[k].record
    decreases |steps|
  {
    if steps != [] {
      var init := steps[..|steps| - 1];
      assert forall k :: 0 <= k < |init| ==> init[k] == steps[k];
      KeepAllPassing(init);
    }
  }

  /** `load(filter, operators)` on a store holding `recordMap`. */
  function LoadSpec(recordMap: Records, invalidRecordMap: Records, filter: seq<Option<string>>,
                    operators: seq<ComparisonOperator>, amountOrder: (Money, Money) -> int)
    : (r: Result<seq<ContractorValue>, DaoError>)
    requires ContiguousIds(recordMap) && |operators| >= |filter|
    ensures r.Ok? ==> |r.value| > 0
  {
    var criteria := Forwarded(filter, operators);
    if |criteria| != FIELDS_COUNT then Err(DaoError.IllegalArgument)
    else
      var ids := MatchingIds(ReadAllSpec(recordMap, invalidRecordMap, |recordMap|), criteria);
      if ids == [] then Err(Finder)
      else
        match KeptRecords(recordMap, ids, filter, operators, amountOrder)
        case Err(e) => Err(e)
        case Ok(list) => if list == [] then Err(Finder) else Ok(list)
  }

  /** `load(filter, operators)` returns exactly the valid records that match
      the forwarded STARTS_WITH criteria and pass the remaining operators,
      each carrying its number; there is at least one. */
  lemma LoadReturnsFilteredRecords(recordMap: Records, invalidRecordMap: Records, filter: seq<Option<string>>,
                                   operators: seq<ComparisonOperator>, amountOrder: (Money, Money) -> int,
                                   list: seq<ContractorValue>)
    requires ContiguousIds(recordMap) && invalidRecordMap == InvalidEntries(recordMap)
    requires |operators| >= |filter|
    requires LoadSpec(recordMap, invalidRecordMap, filter, operators, amountOrder) == Ok(list)
    ensures |filter| == FIELDS_COUNT && |list| > 0
    ensures forall k :: 0 <= k < |list| ==>
              && list[k].id in recordMap && recordMap[list[k].id].flag == VALID
              && RecordMatches(recordMap[list[k].id], Forwarded(filter, operators))
              && list[k] == Loaded(recordMap, list[k].id)
              && PassesFilter(list[k], filter, operators, amountOrder) == Ok(true)
    ensures forall id ::
              && id in recordMap && recordMap[id].flag == VALID
              && RecordMatches(recordMap[id], Forwarded(filter, operators))
              && PassesFilter(Loaded(recordMap, id), filter, operators, amountOrder) == Ok(true)
              ==> Loaded(recordMap, id) in list
  {
    var criteria := Forwarded(filter, operators);
    var ids := MatchingIds(ReadAllSpec(recordMap, invalidRecordMap, |recordMap|), criteria);
    LoadSpecKeeps(recordMap, invalidRecordMap, filter, operators, amountOrder, list);
    var steps := LoadSteps(recordMap, ids, filter, operators, amountOrder);
    FindFindsValidMatches(recordMap, invalidRecordMap, criteria);
    forall k | 0 <= k < |list|
      ensures && list[k].id in recordMap && recordMap[list[k].id].flag == VALID
              && RecordMatches(recordMap[list[k].id], criteria)
              && list[k] == Loaded(recordMap, list[k].id)
              && PassesFilter(list[k], filter, operators, amountOrder) == Ok(true)
    {
      var i := KeepSound(steps, list, k);
      StepOfRead(recordMap, ids[i], filter, operators, amountOrder, list[k]);
      assert ids[i] in ids;
    }
    forall id | && id in recordMap && recordMap[id].flag == VALID
                && RecordMatches(recordMap[id], criteria)
                && PassesFilter(Loaded(recordMap, id), filter, operators, amountOrder) == Ok(true)
      ensures Loaded(recordMap, id) in list
    {
      assert id in ids;
      var j :| 0 <= j < |ids| && ids[j] == id;
      StepOfPassing(recordMap, id, filter, operators, amountOrder);
      KeepComplete(steps, list, j);
    }
  }

  /** A successful `load` is the loop over the numbers `find` gave, with a
      full filter. */
  lemma LoadSpecKeeps(recordMap: Records, invalidRecordMap: Records, filter: seq<Option<string>>,
                      operators: seq<ComparisonOperator>, amountOrder: (Money, Money) -> int,
                      list: seq<ContractorValue>)
    requires ContiguousIds(recordMap) && |operators| >= |filter|
    requires LoadSpec(recordMap, invalidRecordMap, filter, operators, amountOrder) == Ok(list)
    ensures |filter| == FIELDS_COUNT && |Forwarded(filter, operators)| == FIELDS_COUNT && |list| > 0
    ensures var ids := MatchingIds(ReadAllSpec(recordMap, invalidRecordMap, |recordMap|), Forwarded(filter, operators));
            Keep(LoadSteps(recordMap, ids, filter, operators, amountOrder)) == Ok(list)
  {
  }

  /** A step that keeps a record read a valid record that passes the
      filter. */
  lemma StepOfRead(recordMap: Records, id: int, filter: seq<Option<string>>,
                   operators: seq<ComparisonOperator>, amountOrder: (Money, Money) -> int,
                   record: ContractorValue)
    requires |filter| == FIELDS_COUNT && |operators| >= |filter|
    requires StepOf(recordMap, id, filter, operators, amountOrder) == Read(record, true)
    ensures id in recordMap && recordMap[id].flag == VALID
    ensures record == Loaded(recordMap, id) && record.id == id
    ensures PassesFilter(record, filter, operators, amountOrder) == Ok(true)
  {
  }

  /** The number of a valid record that passes the filter makes a passing
      step. */
  lemma StepOfPassing(recordMap: Records, id: int, filter: seq<Option<string>>,
                      operators: seq<ComparisonOperator>, amountOrder: (Money, Money) -> int)
    requires |filter| == FIELDS_COUNT && |operators| >= |filter|
    requires id in recordMap && recordMap[id].flag == VALID
    requires PassesFilter(Loaded(recordMap, id), filter, operators, amountOrder) == Ok(true)
    ensures StepOf(recordMap, id, filter, operators, amountOrder) == Read(Loaded(recordMap, id), true)
  {
  }

  /** With STARTS_WITH everywhere, every number `find` gives makes a
      passing step. */
  lemma FoundStepsPass(recordMap: Records, invalidRecordMap: Records, filter: seq<Option<string>>,
                       operators: seq<ComparisonOperator>, amountOrder: (Money, Money) -> int,
                       ids: seq<int>)
    requires ContiguousIds(recordMap) && invalidRecordMap == InvalidEntries(recordMap)
    requires |filter| == FIELDS_COUNT && |operators| == |filter|
    requires forall i :: 0 <= i < |filter| ==> operators[i] == STARTS_WITH
    requires ids == MatchingIds(ReadAllSpec(recordMap, invalidRecordMap, |recordMap|), filter)
    ensures forall k :: 0 <= k < |ids| ==> ids[k] in recordMap
    ensures var steps := LoadSteps(recordMap, ids, filter, operators, amountOrder);
            forall k :: 0 <= k < |ids| ==> steps[k].Read? && steps[k].passes
                                           && steps[k].record == Loaded(recordMap, ids[k])
  {
    FindFindsValidMatches(recordMap, invalidRecordMap, filter);
    forall k | 0 <= k < |ids|
      ensures ids[k] in recordMap
      ensures StepOf(recordMap, ids[k], filter, operators, amountOrder) == Read(Loaded(recordMap, ids[k]), true)
    {
      assert ids[k] in ids;
      StartsWithOnlyPassesAll(Loaded(recordMap, ids[k]), filter, operators, amountOrder);
      StepOfPassing(recordMap, ids[k], filter, operators, amountOrder);
    }
  }

  /** `load(filter)`, which runs `load(filter, operators)` with STARTS_WITH
      everywhere, is the store's `find(filter)` with each found record read
      back under its number; an empty result is DaoFinderException. */
  lemma LoadByPrefixIsFind(recordMap: Records, invalidRecordMap: Records, filter: seq<Option<string>>,
                           amountOrder: (Money, Money) -> int)
    requires ContiguousIds(recordMap) && invalidRecordMap == InvalidEntries(recordMap)
    ensures var operators := seq(|filter|, _ => STARTS_WITH);
            var r := LoadSpec(recordMap, invalidRecordMap, filter, operators, amountOrder);
            && (|filter| != FIELDS_COUNT ==> r == Err(DaoError.IllegalArgument))
            && (|filter| == FIELDS_COUNT ==>
                  var ids := MatchingIds(ReadAllSpec(recordMap, invalidRecordMap, |recordMap|), filter);
                  && (ids == [] ==> r == Err(Finder))
                  && (ids != [] ==>
                        && r.Ok? && |r.value| == |ids|
                        && forall k :: 0 <= k < |ids| ==>
                             ids[k] in recordMap && r.value[k] == Loaded(recordMap, ids[k])))
  {
    var operators := seq(|filter|, _ => STARTS_WITH);
    assert Forwarded(filter, operators) == filter;
    if |filter| == FIELDS_COUNT {
      var ids := MatchingIds(ReadAllSpec(recordMap, invalidRecordMap, |recordMap|), filter);
      FoundStepsPass(recordMap, invalidRecordMap, filter, operators, amountOrder, ids);
      var steps := LoadSteps(recordMap, ids, filter, operators, amountOrder);
      KeepAllPassing(steps);
      assert KeptRecords(recordMap, ids, filter, operators, amountOrder) == Keep(steps);
    }
  }

  // ---------------------------------------------------------------------
  // Error translation
  // ---------------------------------------------------------------------

  /** The `catch` of `remove`: a RecordNotFoundException without a cause or
      caused by another one means the record is gone; any other cause is a
      general failure. `delete` raises nothing else. */
  function RemoveError(e: DbError): DaoError {
    match e
    case RecordNotFound(cause) =>
      if cause.None? || cause.value.RecordNotFound? then StaleObject else Failure
    case IllegalArgument => DaoError.IllegalArgument
    case _ => Failure
  }

  /** The `catch` of `store`: a DuplicateKeyException without a cause or
      caused by another one is a duplicate; any other cause is a general
      failure. An IllegalArgumentException passes through. */
  function StoreError(e: DbError): DaoError {
    match e
    case DuplicateKey(cause) =>
      if cause.None? || cause.value.DuplicateKey? then Duplicate else Failure
    case IllegalArgument => DaoError.IllegalArgument
    case _ => Failure
  }

  /** The `catch` of `update`: gone, duplicate, or a general failure, by the
      cause of the RecordNotFoundException. */
  function UpdateError(e: DbError): DaoError {
    match e
    case RecordNotFound(cause) =>
      if cause.None? || cause.value.RecordNotFound? then StaleObject
      else if cause.value.DuplicateKey? then Duplicate
      else Failure
    case IllegalArgument => DaoError.IllegalArgument
    case _ => Failure
  }

  /** `store` with its `catch`. */
  function CaughtByStore(created: Result<int, DbError>): Result<int, DaoError> {
    match created
    case Err(e) => Err(StoreError(e))
    case Ok(recNo) => Ok(recNo)
  }

  /** `update` with its `catch`. */
  function CaughtByUpdate(updated: Outcome<DbError>): Outcome<DaoError> {
    match updated
    case Fail(e) => Fail(UpdateError(e))
    case Pass => Pass
  }

  /** `create(data)` with the `catch` of `store`, for texts that make the
      contractor `v`. */
  lemma CreateOutcomes(recordMap: Records, data: seq<string>, v: ContractorValue, recNo: int, ioFault: bool)
    requires FromStrings(data) == Ok(v)
    ensures NameTaken(recordMap, v.name, v.location) ==>
              && CaughtByStore(CreateAnswer(recordMap, data, recNo, ioFault)) == Err(Duplicate)
              && CreatedMap(recordMap, data, recNo) == recordMap
    ensures !NameTaken(recordMap, v.name, v.location) ==>
              && CaughtByStore(CreateAnswer(recordMap, data, recNo, ioFault))
                 == (if ioFault then Err(Failure) else Ok(recNo))
              && CreatedMap(recordMap, data, recNo) == recordMap[recNo := v.(id := recNo)]
  {
  }

  /** `store(persistent)` of a well-formed record: DaoDuplicateException
      and nothing stored when a valid record has its name and location;
      otherwise the record, read back from its texts, is stored under the
      new number, and a failed write gives DaoException. */
  lemma StoreOutcomes(recordMap: Records, persistent: ContractorValue, recNo: int, ioFault: bool)
    requires WellFormed(persistent)
    ensures var data := FieldStrings(persistent);
            NameTaken(recordMap, persistent.name, persistent.location) ==>
              && CaughtByStore(CreateAnswer(recordMap, data, recNo, ioFault)) == Err(Duplicate)
              && CreatedMap(recordMap, data, recNo) == recordMap
    ensures var data := FieldStrings(persistent);
            !NameTaken(recordMap, persistent.name, persistent.location) ==>
              && CaughtByStore(CreateAnswer(recordMap, data, recNo, ioFault))
                 == (if ioFault then Err(Failure) else Ok(recNo))
              && CreatedMap(recordMap, data, recNo) == recordMap[recNo := FromStrings(data).value.(id := recNo)]
  {
    TextsKeepKey(persistent);
    var data := FieldStrings(persistent);
    CreateOutcomes(recordMap, data, FromStrings(data).value, recNo, ioFault);
  }

  /** `update(recNo, data)` with the `catch` of `update`, for texts that
      make the contractor `v`. */
  lemma ChangeOutcomes(recordMap: Records, invalidRecordMap: Records, recNo: int, data: seq<string>,
                       v: ContractorValue, ioFault: bool)
    requires FromStrings(data) == Ok(v)
    ensures var o := CaughtByUpdate(UpdateAnswer(recordMap, invalidRecordMap, recNo, data, ioFault));
            var m := UpdatedMap(recordMap, invalidRecordMap, recNo, data);
            && (ReadRecordSpec(recordMap, recNo).Err? ==> o == Fail(StaleObject) && m == recordMap)
            && (ReadRecordSpec(recordMap, recNo).Ok? ==>
                  && (!IntegrityOk(recordMap, invalidRecordMap, v.(id := recNo)) ==>
                        o == Fail(Duplicate) && m == recordMap)
                  && (IntegrityOk(recordMap, invalidRecordMap, v.(id := recNo)) ==>
                        && m == recordMap[recNo := v.(id := recNo)]
                        && o == (if ioFault then Fail(Failure) else Pass)))
  {
  }

  /** `update(persistent)` of a well-formed record: a missing or deleted
      record gives DaoStaleObjectException; a name and location held by
      another valid record, DaoDuplicateException; otherwise the record,
      read back from its texts, replaces the stored one, and a failed write
      gives DaoException. Only a passing update changes the map. */
  lemma UpdateOutcomes(recordMap: Records, invalidRecordMap: Records, persistent: ContractorValue, ioFault: bool)
    requires WellFormed(persistent)
    ensures var data := FieldStrings(persistent);
            var o := CaughtByUpdate(UpdateAnswer(recordMap, invalidRecordMap, persistent.id, data, ioFault));
            var m := UpdatedMap(recordMap, invalidRecordMap, persistent.id, data);
            var record := FromStrings(data).value.(id := persistent.id);
            && (ReadRecordSpec(recordMap, persistent.id).Err? ==> o == Fail(StaleObject) && m == recordMap)
            && (ReadRecordSpec(recordMap, persistent.id).Ok? ==>
                  && (!IntegrityOk(recordMap, invalidRecordMap, record) ==> o == Fail(Duplicate) && m == recordMap)
                  && (IntegrityOk(recordMap, invalidRecordMap, record) ==>
                        && m == recordMap[persistent.id := record]
                        && o == (if ioFault then Fail(Failure) else Pass)))
  {
    TextsKeepKey(persistent);
    var data := FieldStrings(persistent);
    ChangeOutcomes(recordMap, invalidRecordMap, persistent.id, data, FromStrings(data).value, ioFault);
  }

  // ---------------------------------------------------------------------
  // The DAO
  // ---------------------------------------------------------------------

  /** `ContractorLocalDao` over its store, with the comparator factory it
      uses (a static singleton in the source). */
  class ContractorLocalDao {
    const db: Data
    const comparators: ComparatorFactory
    /** The order of money amounts the money comparator uses. */
    const amountOrder: (Money, Money) -> int

    ghost predicate Valid()
      reads this, db, comparators
    {
      db.Valid() && db.lockedRecords == {} && comparators.Valid()
    }

    constructor (db: Data, comparators: ComparatorFactory, amountOrder: (Money, Money) -> int)
      ensures this.db == db && this.comparators == comparators && this.amountOrder == amountOrder
    {
      this.db := db;
      this.comparators := comparators;
      this.amountOrder := amountOrder;
    }

    /** `new ContractorLocalDao(dbFilename)`: the store's
        InitializationException becomes DaoInitializationException; the
        flag error is not caught. */
    static method Open(fileExists: bool, contents: seq<byte>, loadFault: bool,
                       comparators: ComparatorFactory, amountOrder: (Money, Money) -> int)
      returns (r: Result<ContractorLocalDao, DaoError>)
      requires comparators.Valid()
      ensures r.Err? ==> r.error.Initialization? || r.error == CorruptFile
      ensures !fileExists ==> r == Err(Initialization(FileMissing))
      ensures fileExists && ParseHeader(contents).Err? ==> r == Err(Initialization(ParseHeader(contents).error))
      ensures fileExists && ParseHeader(contents).Ok? && !loadFault ==>
                (r.Ok? <==> DecodeAll(contents, ParseHeader(contents).value).Ok?)
      ensures r.Ok? ==> fresh(r.value) && r.value.Valid() && r.value.db.lockedRecords == {}
                        && r.value.comparators == comparators
    {
      var data := Data.Open(fileExists, contents, loadFault);
      if data.Err? {
        if data.error.Init? {
          return Err(Initialization(data.error.cause));
        }
        return Err(CorruptFile);
      }
      var dao := new ContractorLocalDao(data.value, comparators, amountOrder);
      r := Ok(dao);
    }

    /** `findById(id)`: the record read under `id`, or DaoFinderException.
        The result is built by `new Contractor(String[])` and its number is
        never set, so it comes back unsaved. */
    method FindById(id: int) returns (r: Result<ContractorValue, DaoError>)
      requires Valid()
      ensures r == FoundById(db.recordMap, id)
      ensures r.Ok? ==> r.value.id == UNSAVED_RECORD_NO && !Stored(r.value)
    {
      var read := db.Read(id);
      if read.Err? {
        return Err(Finder);
      }
      r := Ok(FromStrings(read.value).value);
    }

    /** `findById` as its contract describes it: the record is returned
        under the number it was found by, as `refresh` and `load` do. */
    method FindByIdKeepingId(id: int) returns (r: Result<ContractorValue, DaoError>)
      requires Valid()
      ensures r == FoundByIdKeepingId(db.recordMap, id)
      ensures r.Ok? ==> r.value.id == id
      ensures r.Ok? && WellFormed(db.recordMap[id]) ==> FieldStrings(r.value) == FieldStrings(db.recordMap[id])
    {
      var read := db.Read(id);
      if read.Err? {
        return Err(Finder);
      }
      r := Ok(FromStrings(read.value).value.(id := id));
      if WellFormed(db.recordMap[id]) {
        FieldStringsStable(db.recordMap[id]);
      }
    }

    /** `load()`: every valid record. */
    method LoadAll() returns (list: seq<ContractorValue>)
      requires Valid()
      ensures list == ReadAllSpec(db.recordMap, db.invalidRecordMap, |db.recordMap|)
    {
      list := db.ReadAll();
    }

    /** `load(filter)`: STARTS_WITH on every field. */
    method LoadByPrefix(filter: seq<Option<string>>) returns (r: Result<seq<ContractorValue>, DaoError>)
      requires Valid()
      modifies comparators
      ensures Valid()
      ensures r == LoadSpec(db.recordMap, db.invalidRecordMap, filter, seq(|filter|, _ => STARTS_WITH),
                            amountOrder)
    {
      var operators := seq(|filter|, _ => STARTS_WITH);
      r := Load(filter, operators);
    }

    /** `load(filter, operators)`. */
    method Load(filter: seq<Option<string>>, operators: seq<ComparisonOperator>)
      returns (r: Result<seq<ContractorValue>, DaoError>)
      requires Valid() && |operators| >= |filter|
      modifies comparators
      ensures Valid()
      ensures r == LoadSpec(db.recordMap, db.invalidRecordMap, filter, operators, amountOrder)
    {
      var criteria := ForwardCriteria(filter, operators);
      var found := db.Find(criteria);
      if found.Err? {
        if found.error == DbError.IllegalArgument {
          return Err(DaoError.IllegalArgument);
        }
        return Err(Finder);
      }
      var ids := found.value;
      ghost var steps := LoadSteps(db.recordMap, ids, filter, operators, amountOrder);
      var list: seq<ContractorValue> := [];
      for k := 0 to |ids|
        invariant Valid()
        invariant Keep(steps[..k]) == Ok(list)
      {
        KeepStep(steps, k);
        var id := ids[k];
        var read := db.Read(id);
        if read.Err? {
          KeepPrefixError(steps, k + 1);
          return Err(Failure);
        }
        var record := FromStrings(read.value).value.(id := id);
        assert record == Loaded(db.recordMap, id);
        var matches := RecordPassesFilter(record, filter, operators);
        if matches.Err? {
          KeepPrefixError(steps, k + 1);
          return Err(DaoError.IllegalArgument);
        }
        if matches.value {
          list := list + [record];
        }
      }
      assert steps[..|ids|] == steps;
      if |list| == 0 {
        return Err(Finder);
      }
      r := Ok(list);
    }

    /** The first loop of `load(filter, operators)`: the STARTS_WITH
        patterns are kept, every other position becomes `null`. */
    static method ForwardCriteria(filter: seq<Option<string>>, operators: seq<ComparisonOperator>)
      returns (criteria: seq<Option<string>>)
      requires |operators| >= |filter|
      ensures |criteria| == |filter|
      ensures forall i :: 0 <= i < |filter| && operators[i] == STARTS_WITH ==> criteria[i] == filter[i]
      ensures forall i :: 0 <= i < |filter| && operators[i] != STARTS_WITH ==> criteria[i].None?
      ensures criteria == Forwarded(filter, operators)
    {
      criteria := [];
      for i := 0 to |filter|
        invariant criteria == Forwarded(filter[..i], operators)
      {
        if operators[i] == STARTS_WITH {
          criteria := criteria + [filter[i]];
        } else {
          criteria := criteria + [None];
        }
      }
      assert filter[..|filter|] == filter;
    }

    /** `matches(record, filter, operators)`: the comparator of each checked
        field comes from the factory. */
    method RecordPassesFilter(record: ContractorValue, filter: seq<Option<string>>,
                              operators: seq<ComparisonOperator>)
      returns (r: Result<bool, DomainError>)
      requires comparators.Valid() && |filter| == FIELDS_COUNT && |operators| >= |filter|
      modifies comparators
      ensures comparators.Valid()
      ensures r == PassesFilter(record, filter, operators, amountOrder)
    {
      for i := 0 to |filter|
        invariant comparators.Valid()
        invariant PassesFilter(record, filter, operators, amountOrder)
               == FilterFrom(FieldStrings(record), filter, operators, amountOrder, i)
      {
        if operators[i] != STARTS_WITH && filter[i].Some? {
          var comparator := comparators.GetComparator(GetFieldType(i));
          var strings := FieldStrings(record);
          var holds := Matches(comparator, strings[i], filter[i].value, operators[i]);
          if holds.Err? {
            return Err(holds.error);
          }
          if !holds.value {
            return Ok(false);
          }
        }
      }
      r := Ok(true);
    }

    /** `matches(comparator, arg1, arg2, operator)`. */
    method Matches(comparator: Comparator, arg1: string, arg2: string, operator: ComparisonOperator)
      returns (r: Result<bool, DomainError>)
      ensures r == FieldSatisfies(comparator.kind, arg1, arg2, operator, amountOrder)
      ensures operator == STARTS_WITH ==> r == Ok(false)
      ensures operator == CONTAINS ==> r == Ok(TokensOf(arg2) <= TokensOf(arg1))
      ensures operator != CONTAINS && operator != STARTS_WITH ==>
                match comparator.Compare(arg1, arg2, amountOrder)
                case Err(e) => r == Err(e)
                case Ok(c) => r == Ok(OperatorHolds(operator, c))
    {
      if operator == CONTAINS {
        var set1 := TokenSet(SplitComma(arg1));
        var set2 := TokenSet(SplitComma(arg2));
        set2 := set2 - set1;
        assert |set2| == 0 <==> TokensOf(arg2) <= TokensOf(arg1) by {
          if TokensOf(arg2) <= TokensOf(arg1) {
            assert set2 == {};
          }
          if |set2| == 0 {
            assert set2 == {};
            assert forall t :: t in TokensOf(arg2) ==> t in TokensOf(arg1) by {
              forall t | t in TokensOf(arg2) ensures t in TokensOf(arg1) {
                assert t !in set2;
              }
            }
          }
        }
        return Ok(|set2| == 0);
      }
      if operator == STARTS_WITH {
        return Ok(false);
      }
      var c := comparator.Compare(arg1, arg2, amountOrder);
      if c.Err? {
        return Err(c.error);
      }
      r := Ok(OperatorHolds(operator, c.value));
    }

    /** One token loop of the CONTAINS branch. */
    static method TokenSet(strings: seq<string>) returns (tokens: set<string>)
      ensures tokens == Tokens(strings)
    {
      tokens := {};
      for i := 0 to |strings|
        invariant tokens == Tokens(strings[..i])
      {
        assert strings[..i + 1][..i] == strings[..i];
        var piece := Trim(strings[i]);
        if |piece| > 0 {
          tokens := tokens + {ToUpperCase(piece)};
        }
      }
      assert strings[..|strings|] == strings;
    }

    /** `refresh(persistent)`: the record read again under the caller's
        number, or DaoStaleObjectException once it is gone. */
    method Refresh(persistent: ContractorValue) returns (r: Result<ContractorValue, DaoError>)
      requires Valid()
      ensures ReadRecordSpec(db.recordMap, persistent.id).Err? ==> r == Err(StaleObject)
      ensures ReadRecordSpec(db.recordMap, persistent.id).Ok? ==> r == Ok(Loaded(db.recordMap, persistent.id))
      ensures r.Ok? ==> r.value.id == persistent.id
      ensures r.Ok? && WellFormed(db.recordMap[persistent.id]) ==>
                FieldStrings(r.value) == FieldStrings(db.recordMap[persistent.id])
    {
      var read := db.Read(persistent.id);
      if read.Err? {
        return Err(StaleObject);
      }
      r := Ok(FromStrings(read.value).value.(id := persistent.id));
      if WellFormed(db.recordMap[persistent.id]) {
        FieldStringsStable(db.recordMap[persistent.id]);
      }
    }

    /** `remove(persistent)`: `delete`; a record that is missing or already
        deleted is stale, a failed write is a general failure. */
    method Remove(persistent: ContractorValue, fault: Fault) returns (o: Outcome<DaoError>)
      requires Valid()
      modifies db, db.dbHelper.dbFile
      ensures Valid()
      ensures old(db.ReadRecord(persistent.id)).Err? ==>
                && o == Fail(StaleObject)
                && db.recordMap == old(db.recordMap) && db.invalidRecordMap == old(db.invalidRecordMap)
                && db.dbHelper.dbFile.contents == old(db.dbHelper.dbFile.contents)
      ensures old(db.ReadRecord(persistent.id)).Ok? ==>
                var deleted := old(db.recordMap)[persistent.id].(flag := INVALID);
                && db.recordMap == old(db.recordMap)[persistent.id := deleted]
                && db.invalidRecordMap == old(db.invalidRecordMap)[persistent.id := deleted]
                && db.ReadRecord(persistent.id).Err?
                && o == (if fault.NoFault? then Pass else Fail(Failure))
                && db.dbHelper.dbFile.contents
                   == StoredContents(old(db.dbHelper.dbFile.contents),
                                     SlotOffset(db.dbHelper.firstRecordOffset, persistent.id), deleted, fault)
    {
      var deleted := db.Delete(persistent.id, fault);
      if deleted.Fail? {
        return Fail(RemoveError(deleted.error));
      }
      o := Pass;
    }

    /** `store(persistent)`: `create` with the record's texts, its
        exceptions translated by the `catch` of `store`; `recNo` is the
        number `getNextRecordNo` chose. */
    method Store(persistent: ContractorValue, fault: Fault) returns (r: Result<int, DaoError>, ghost recNo: int)
      requires Valid()
      modifies db, db.dbHelper.dbFile
      ensures Valid()
      ensures NextRecordNoChoice(old(db.recordMap), old(db.invalidRecordMap), recNo)
      ensures r == CaughtByStore(CreateAnswer(old(db.recordMap), FieldStrings(persistent), recNo, fault.FailAfter?))
      ensures db.recordMap == CreatedMap(old(db.recordMap), FieldStrings(persistent), recNo)
      ensures var v := FromStrings(FieldStrings(persistent));
              if v.Ok? && !NameTaken(old(db.recordMap), v.value.name, v.value.location) then
                && db.invalidRecordMap == old(db.invalidRecordMap) - {recNo}
                && db.dbHelper.dbFile.contents
                   == StoredContents(old(db.dbHelper.dbFile.contents),
                                     SlotOffset(db.dbHelper.firstRecordOffset, recNo), v.value.(id := recNo), fault)
              else
                && db.invalidRecordMap == old(db.invalidRecordMap)
                && db.dbHelper.dbFile.contents == old(db.dbHelper.dbFile.contents)
    {
      var created;
      created, recNo := db.Create(FieldStrings(persistent), fault);
      if created.Err? {
        return Err(StoreError(created.error)), recNo;
      }
      r := Ok(created.value);
    }

    /** `update(persistent)`: `update` with the record's number and texts,
        its exceptions translated by the `catch` of `update`. */
    method Update(persistent: ContractorValue, fault: Fault) returns (o: Outcome<DaoError>)
      requires Valid()
      modifies db, db.dbHelper.dbFile
      ensures Valid()
      ensures o == CaughtByUpdate(UpdateAnswer(old(db.recordMap), old(db.invalidRecordMap), persistent.id,
                                               FieldStrings(persistent), fault.FailAfter?))
      ensures db.recordMap == UpdatedMap(old(db.recordMap), old(db.invalidRecordMap), persistent.id,
                                         FieldStrings(persistent))
      ensures db.invalidRecordMap == old(db.invalidRecordMap)
      ensures var v := FromStrings(FieldStrings(persistent));
              var record := v.value.(id := persistent.id);
              if old(db.ReadRecord(persistent.id)).Ok? && v.Ok?
                 && IntegrityOk(old(db.recordMap), old(db.invalidRecordMap), record) then
                db.dbHelper.dbFile.contents
                == StoredContents(old(db.dbHelper.dbFile.contents),
                                  SlotOffset(db.dbHelper.firstRecordOffset, persistent.id), record, fault)
              else
                db.dbHelper.dbFile.contents == old(db.dbHelper.dbFile.contents)
    {
      var updated := db.Update(persistent.id, FieldStrings(persistent), fault);
      if updated.Fail? {
        return Fail(UpdateError(updated.error));
      }
      o := Pass;
    }
  }
}
