/** The record store: every slot of the file in `recordMap` (deleted ones
    included), the deleted ("invalid") ones again in `invalidRecordMap`, and
    the set of locked record numbers. On top of them: read, readAll, find,
    create, update, delete and the record locks, with the exceptions of the
    source as error values. */
module Db {
  import opened Wrappers
  import opened StringHelper
  import opened DBMetaInfo
  import opened Domain
  import opened Bytes
  import opened Storage

  /** The exceptions the store raises. A cause is the exception wrapped by
      `new XxxException(message, cause)`. */
  datatype DbError =
    | RecordNotFound(cause: Option<DbError>)   // RecordNotFoundException
    | DuplicateKey(cause: Option<DbError>)     // DuplicateKeyException
    | StoreFailed(io: IoError)                 // DBException wrapping an IOException
    | IllegalArgument                          // IllegalArgumentException (unchecked)

  /** What opening the store fails with: the helper's InitializationException,
      or the ArrayIndexOutOfBoundsException of a flag byte that is neither 0
      nor 1, which no handler of the constructor catches. */
  datatype OpenError = Init(cause: InitError) | CorruptFlag

  /** `DBOperationEnum`. */
  datatype Operation = CREATE | UPDATE | DELETE

  type Records = map<int, ContractorValue>

  // ---------------------------------------------------------------------
  // The shape of the maps
  // ---------------------------------------------------------------------

  /** The numbers in use are exactly 1..n, and each record carries its own
      number: what `loadAllRecords` builds and `create` keeps, since a new
      number is either a reused one or one past the largest. */
  ghost predicate ContiguousIds(m: Records) {
    && (forall k :: k in m <==> FIRST_RECORD_NO <= k <= |m|)
    && (forall k :: k in m ==> m[k].id == k)
  }

  /** The entries of `m` flagged INVALID. */
  function InvalidEntries(m: Records): (r: Records)
    ensures forall k :: k in r <==> k in m && m[k].flag == INVALID
    ensures forall k :: k in r ==> r[k] == m[k]
  {
    map k | k in m && m[k].flag == INVALID :: m[k]
  }

  /** The store's invariant: contiguous numbering, the invalid map holds
      exactly the deleted records, and only existing records are locked. */
  ghost predicate Consistent(recordMap: Records, invalidRecordMap: Records, lockedRecords: set<int>) {
    && ContiguousIds(recordMap)
    && invalidRecordMap == InvalidEntries(recordMap)
    && lockedRecords <= recordMap.Keys
  }

  /** Record numbers start at FIRST_RECORD_NO, one above UNSAVED_RECORD_NO:
      the unsaved number never keys a record of the store, and every record
      the store keeps counts as saved. */
  lemma KeptRecordsAreSaved(m: Records)
    requires ContiguousIds(m)
    ensures UNSAVED_RECORD_NO !in m
    ensures forall k :: k in m ==> Stored(m[k])
  {
  }

  /** `map.containsValue(r)`: some entry `equals` r. */
  predicate ContainsValue(m: Records, r: ContractorValue) {
    exists k :: k in m && SameRecord(m[k], r)
  }

  /** `checkDataIntegrity(record)` lets the record through: either no valid
      record equals it, or the record stored under its own number does. */
  predicate IntegrityOk(recordMap: Records, invalidRecordMap: Records, record: ContractorValue) {
    (ContainsValue(recordMap, record) && !ContainsValue(invalidRecordMap, record))
    ==> (record.id in recordMap && SameRecord(record, recordMap[record.id]))
  }

  /** A valid record with this name and location exists. */
  predicate NameTaken(recordMap: Records, name: string, location: string) {
    exists k :: k in recordMap && recordMap[k].flag == VALID
                && recordMap[k].name == name && recordMap[k].location == location
  }

  /** The numbers `getNextRecordNo` may return: any invalid number when
      there is one (the first in hash order, which the model leaves open),
      otherwise one past the largest number in use, or 1 when there is
      none. */
  predicate NextRecordNoChoice(recordMap: Records, invalidRecordMap: Records, id: int) {
    if invalidRecordMap != map[] then id in invalidRecordMap
    else
      && id >= FIRST_RECORD_NO
      && (forall k :: k in recordMap ==> k < id)
      && (id == FIRST_RECORD_NO || id - 1 in recordMap)
  }

  // ---------------------------------------------------------------------
  // Reading
  // ---------------------------------------------------------------------

  /** `readRecord(recNo)`: the record, unless it is missing or deleted. */
  function ReadRecordSpec(recordMap: Records, recNo: int): (r: Result<ContractorValue, DbError>)
    ensures r.Ok? <==> recNo in recordMap && recordMap[recNo].flag == VALID
    ensures r.Ok? ==> r.value == recordMap[recNo]
    ensures r.Err? ==> r.error == RecordNotFound(None)
  {
    if recNo !in recordMap then Err(RecordNotFound(None))
    else if recordMap[recNo].flag.INVALID? then Err(RecordNotFound(None))
    else Ok(recordMap[recNo])
  }

  /** `new ArrayList(recordMap.values())` for records 1..n, in hash order
      (ascending numbers for contiguous small keys), followed by
      `removeAll(invalidRecordMap.values())`: every element that `equals`
      an invalid record is dropped. */
  function ReadAllSpec(recordMap: Records, invalidRecordMap: Records, n: nat): (list: seq<ContractorValue>)
    requires forall k :: FIRST_RECORD_NO <= k <= n ==> k in recordMap
    ensures |list| <= n
  {
    if n == 0 then []
    else
      var rest := ReadAllSpec(recordMap, invalidRecordMap, n - 1);
      if ContainsValue(invalidRecordMap, recordMap[n]) then rest else rest + [recordMap[n]]
  }

  /** Under the invariant, equality with an invalid record is the same as
      being flagged INVALID. */
  lemma ContainsInvalidIffFlagged(recordMap: Records, invalidRecordMap: Records, k: int)
    requires invalidRecordMap == InvalidEntries(recordMap) && k in recordMap
    ensures ContainsValue(invalidRecordMap, recordMap[k]) <==> recordMap[k].flag == INVALID
  {
    if recordMap[k].flag == INVALID {
      assert k in invalidRecordMap && SameRecord(invalidRecordMap[k], recordMap[k]);
    }
  }

  /** Every record `readAll` keeps is a valid record stored under its own
      number, and the numbers ascend. */
  lemma {:induction false} ReadAllKeepsValid(recordMap: Records, invalidRecordMap: Records, n: nat)
    requires ContiguousIds(recordMap) && invalidRecordMap == InvalidEntries(recordMap)
    requires n <= |recordMap|
    ensures forall i :: 0 <= i < |ReadAllSpec(recordMap, invalidRecordMap, n)| ==>
              FIRST_RECORD_NO <= ReadAllSpec(recordMap, invalidRecordMap, n)[i].id <= n
    ensures forall i :: 0 <= i < |ReadAllSpec(recordMap, invalidRecordMap, n)| ==>
              var x := ReadAllSpec(recordMap, invalidRecordMap, n)[i];
              x.id in recordMap && x == recordMap[x.id] && x.flag == VALID
    ensures forall i, j :: 0 <= i < j < |ReadAllSpec(recordMap, invalidRecordMap, n)| ==>
              ReadAllSpec(recordMap, invalidRecordMap, n)[i].id < ReadAllSpec(recordMap, invalidRecordMap, n)[j].id
  {
    if n > 0 {
      ReadAllKeepsValid(recordMap, invalidRecordMap, n - 1);
      ContainsInvalidIffFlagged(recordMap, invalidRecordMap, n);
      var rest := ReadAllSpec(recordMap, invalidRecordMap, n - 1);
      var list := ReadAllSpec(recordMap, invalidRecordMap, n);
      assert n in recordMap && recordMap[n].id == n;
      if !ContainsValue(invalidRecordMap, recordMap[n]) {
        assert recordMap[n].flag == VALID;
        assert list == rest + [recordMap[n]];
        forall i | 0 <= i < |list|
          ensures FIRST_RECORD_NO <= list[i].id <= n
          ensures list[i].id in recordMap && list[i] == recordMap[list[i].id] && list[i].flag == VALID
          ensures i < |rest| ==> list[i] == rest[i] && list[i].id < n
        {
          if i < |rest| {
            assert list[i] == rest[i];
          } else {
            assert list[i] == recordMap[n];
          }
        }
      }
    }
  }

  /** `readAll` drops no valid record. */
  lemma {:induction false} ReadAllKeepsEveryValid(recordMap: Records, invalidRecordMap: Records, n: nat, k: int)
    requires ContiguousIds(recordMap) && invalidRecordMap == InvalidEntries(recordMap)
    requires n <= |recordMap| && FIRST_RECORD_NO <= k <= n && recordMap[k].flag == VALID
    ensures recordMap[k] in ReadAllSpec(recordMap, invalidRecordMap, n)
  {
    ContainsInvalidIffFlagged(recordMap, invalidRecordMap, n);
    if k < n {
      ReadAllKeepsEveryValid(recordMap, invalidRecordMap, n - 1, k);
    }
  }

  /** `readAll` returns the valid records, each once, in ascending number
      order: deleted records are dropped and nothing else is. */
  lemma ReadAllIsValidRecords(recordMap: Records, invalidRecordMap: Records)
    requires ContiguousIds(recordMap) && invalidRecordMap == InvalidEntries(recordMap)
    ensures var list := ReadAllSpec(recordMap, invalidRecordMap, |recordMap|);
            && (forall k :: k in recordMap && recordMap[k].flag == VALID ==> recordMap[k] in list)
            && (forall i :: 0 <= i < |list| ==>
                  list[i].id in recordMap && list[i] == recordMap[list[i].id] && list[i].flag == VALID)
            && (forall i, j :: 0 <= i < j < |list| ==> list[i].id < list[j].id)
  {
    ReadAllKeepsValid(recordMap, invalidRecordMap, |recordMap|);
    forall k | k in recordMap && recordMap[k].flag == VALID
      ensures recordMap[k] in ReadAllSpec(recordMap, invalidRecordMap, |recordMap|)
    {
      ReadAllKeepsEveryValid(recordMap, invalidRecordMap, |recordMap|, k);
    }
  }

  // ---------------------------------------------------------------------
  // find
  // ---------------------------------------------------------------------

  /** `s.trim().toUpperCase()`. */
  function Normalize(s: string): string {
    ToUpperCase(Trim(s))
  }

  /** One criterion: `null` matches anything, a text matches every field
      that, trimmed and upper-cased, begins with it trimmed and upper-cased. */
  predicate FieldMatches(field: string, criterion: Option<string>) {
    criterion.None? || StartsWith(Normalize(field), Normalize(criterion.value))
  }

  predicate RecordMatches(record: ContractorValue, criteria: seq<Option<string>>)
    requires |criteria| == FIELDS_COUNT
  {
    forall k :: 0 <= k < FIELDS_COUNT ==> FieldMatches(FieldStrings(record)[k], criteria[k])
  }

  /** Whether each listed record matches. */
  function MatchFlags(list: seq<ContractorValue>, criteria: seq<Option<string>>): (flags: seq<bool>)
    requires |criteria| == FIELDS_COUNT
    ensures |flags| == |list|
    ensures forall i :: 0 <= i < |list| ==> (flags[i] <==> RecordMatches(list[i], criteria))
  {
    seq(|list|, i requires 0 <= i < |list| => RecordMatches(list[i], criteria))
  }

  /** The numbers of the listed records whose flag is set, in list order. */
  function Selected(list: seq<ContractorValue>, keep: seq<bool>): (ids: seq<int>)
    requires |keep| == |list|
    ensures |ids| <= |list|
  {
    if list == [] then []
    else
      var rest := Selected(list[..|list| - 1], keep[..|list| - 1]);
      if keep[|list| - 1] then rest + [list[|list| - 1].id] else rest
  }

  /** The numbers of the listed records that match, in list order. */
  function MatchingIds(list: seq<ContractorValue>, criteria: seq<Option<string>>): seq<int>
    requires |criteria| == FIELDS_COUNT
  {
    Selected(list, MatchFlags(list, criteria))
  }

  /** `Selected` over one more element of the list. */
  lemma SelectedStep(list: seq<ContractorValue>, keep: seq<bool>, i: nat)
    requires |keep| == |list| && i < |list|
    ensures Selected(list[..i + 1], keep[..i + 1])
            == Selected(list[..i], keep[..i]) + (if keep[i] then [list[i].id] else [])
  {
    assert list[..i + 1][..i] == list[..i];
    assert keep[..i + 1][..i] == keep[..i];
  }

  /** Each number `Selected` gives is that of a kept record, `list[i]`. */
  lemma {:induction false} SelectedSound(list: seq<ContractorValue>, keep: seq<bool>, k: nat)
    returns (i: nat)
    requires |keep| == |list| && k < |Selected(list, keep)|
    ensures i < |list| && list[i].id == Selected(list, keep)[k] && keep[i]
  {
    var init := list[..|list| - 1];
    var rest := Selected(init, keep[..|list| - 1]);
    if k < |rest| {
      i := SelectedSound(init, keep[..|list| - 1], k);
    } else {
      i := |list| - 1;
    }
  }

  /** Each kept record has its number in `Selected`. */
  lemma {:induction false} SelectedComplete(list: seq<ContractorValue>, keep: seq<bool>, i: nat)
    requires |keep| == |list| && i < |list| && keep[i]
    ensures list[i].id in Selected(list, keep)
  {
    if i < |list| - 1 {
      SelectedComplete(list[..|list| - 1], keep[..|list| - 1], i);
    }
  }

  /** `Selected` keeps the list's order: an increasing list of numbers
      gives increasing results. */
  lemma {:induction false} SelectedIncreasing(list: seq<ContractorValue>, keep: seq<bool>)
    requires |keep| == |list|
    requires forall i, j :: 0 <= i < j < |list| ==> list[i].id < list[j].id
    ensures forall i, j :: 0 <= i < j < |Selected(list, keep)| ==>
              Selected(list, keep)[i] < Selected(list, keep)[j]
  {
    if list != [] {
      var init := list[..|list| - 1];
      var initKeep := keep[..|list| - 1];
      SelectedIncreasing(init, initKeep);
      var rest := Selected(init, initKeep);
      forall k | 0 <= k < |rest| ensures rest[k] < list[|list| - 1].id {
        var i := SelectedSound(init, initKeep, k);
      }
    }
  }

  /** The matching numbers of a list that holds each valid record of the
      map once, in ascending number order. */
  lemma MatchingIdsOfValidList(recordMap: Records, list: seq<ContractorValue>, criteria: seq<Option<string>>)
    requires |criteria| == FIELDS_COUNT
    requires forall k :: k in recordMap ==> recordMap[k].id == k
    requires forall k :: k in recordMap && recordMap[k].flag == VALID ==> recordMap[k] in list
    requires forall i :: 0 <= i < |list| ==>
               list[i].id in recordMap && list[i] == recordMap[list[i].id] && list[i].flag == VALID
    requires forall i, j :: 0 <= i < j < |list| ==> list[i].id < list[j].id
    ensures forall j :: j in MatchingIds(list, criteria) <==>
              j in recordMap && recordMap[j].flag == VALID && RecordMatches(recordMap[j], criteria)
    ensures var ids := MatchingIds(list, criteria);
            forall i, j :: 0 <= i < j < |ids| ==> ids[i] < ids[j]
  {
    var keep := MatchFlags(list, criteria);
    SelectedIncreasing(list, keep);
    var ids := Selected(list, keep);
    forall j | j in recordMap && recordMap[j].flag == VALID && RecordMatches(recordMap[j], criteria)
      ensures j in ids
    {
      var i :| 0 <= i < |list| && list[i] == recordMap[j];
      SelectedComplete(list, keep, i);
    }
    forall j | j in ids
      ensures j in recordMap && recordMap[j].flag == VALID && RecordMatches(recordMap[j], criteria)
    {
      var k :| 0 <= k < |ids| && ids[k] == j;
      var i := SelectedSound(list, keep, k);
    }
  }

  /** `find(criteria)` returns exactly the numbers of the valid records
      that match every criterion, in ascending order. */
  lemma FindFindsValidMatches(recordMap: Records, invalidRecordMap: Records, criteria: seq<Option<string>>)
    requires ContiguousIds(recordMap) && invalidRecordMap == InvalidEntries(recordMap)
    requires |criteria| == FIELDS_COUNT
    ensures forall j :: j in MatchingIds(ReadAllSpec(recordMap, invalidRecordMap, |recordMap|), criteria) <==>
              j in recordMap && recordMap[j].flag == VALID && RecordMatches(recordMap[j], criteria)
    ensures var ids := MatchingIds(ReadAllSpec(recordMap, invalidRecordMap, |recordMap|), criteria);
            forall i, j :: 0 <= i < j < |ids| ==> ids[i] < ids[j]
  {
    ReadAllIsValidRecords(recordMap, invalidRecordMap);
    MatchingIdsOfValidList(recordMap, ReadAllSpec(recordMap, invalidRecordMap, |recordMap|), criteria);
  }

  // ---------------------------------------------------------------------
  // Uniqueness and numbering
  // ---------------------------------------------------------------------

  /** For a valid record, `checkDataIntegrity` refuses it exactly when
      another valid record has its name and location and the record under
      its own number does not: keeping a record's own name and location is
      allowed. */
  lemma IntegrityRefusesOnlyOthers(recordMap: Records, invalidRecordMap: Records, record: ContractorValue)
    requires invalidRecordMap == InvalidEntries(recordMap) && record.flag == VALID
    ensures !IntegrityOk(recordMap, invalidRecordMap, record) <==>
              && (exists k :: k in recordMap && k != record.id && recordMap[k].flag == VALID
                             && recordMap[k].name == record.name && recordMap[k].location == record.location)
              && !(record.id in recordMap && SameRecord(recordMap[record.id], record))
  {
    if !IntegrityOk(recordMap, invalidRecordMap, record) {
      var k :| k in recordMap && SameRecord(recordMap[k], record);
      assert k != record.id;
    }
    if exists k :: k in recordMap && k != record.id && recordMap[k].flag == VALID
                  && recordMap[k].name == record.name && recordMap[k].location == record.location {
      var k :| k in recordMap && k != record.id && recordMap[k].flag == VALID
               && recordMap[k].name == record.name && recordMap[k].location == record.location;
      assert SameRecord(recordMap[k], record);
    }
  }

  /** A valid record placed under a free number (unused or deleted) is
      refused exactly when its name and location are taken. */
  lemma IntegrityOnFreeNumber(recordMap: Records, invalidRecordMap: Records, record: ContractorValue)
    requires invalidRecordMap == InvalidEntries(recordMap) && record.flag == VALID
    requires record.id !in recordMap || recordMap[record.id].flag == INVALID
    ensures IntegrityOk(recordMap, invalidRecordMap, record)
            <==> !NameTaken(recordMap, record.name, record.location)
  {
    IntegrityRefusesOnlyOthers(recordMap, invalidRecordMap, record);
    if NameTaken(recordMap, record.name, record.location) {
      var k :| k in recordMap && recordMap[k].flag == VALID
               && recordMap[k].name == record.name && recordMap[k].location == record.location;
      assert k != record.id;
    }
  }

  /** A number `getNextRecordNo` may return is free: it is never the number
      of a valid record; with no deleted record it is one past the last. */
  lemma NextRecordNoIsFree(recordMap: Records, invalidRecordMap: Records, id: int)
    requires ContiguousIds(recordMap) && invalidRecordMap == InvalidEntries(recordMap)
    requires NextRecordNoChoice(recordMap, invalidRecordMap, id)
    ensures id >= FIRST_RECORD_NO
    ensures id !in recordMap || recordMap[id].flag == INVALID
    ensures invalidRecordMap == map[] ==> id == |recordMap| + 1
    ensures id <= |recordMap| + 1
  {
    if invalidRecordMap == map[] && |recordMap| > 0 {
      assert |recordMap| in recordMap;
    }
  }

  /** Uniquely determined when nothing is deleted: on an empty store the
      next number is 1. */
  lemma NextRecordNoOfEmptyStore(id: int)
    requires NextRecordNoChoice(map[], map[], id)
    ensures id == FIRST_RECORD_NO
  {
  }

  /** After `delete(recNo)` on a store with no other deleted record, the
      only number `create` may take is recNo. */
  lemma NextRecordNoReusesDeleted(recordMap: Records, invalidRecordMap: Records, recNo: int, id: int)
    requires invalidRecordMap.Keys == {recNo}
    requires NextRecordNoChoice(recordMap, invalidRecordMap, id)
    ensures id == recNo
  {
    assert recNo in invalidRecordMap;
  }

  // ---------------------------------------------------------------------
  // How the operations change the maps
  // ---------------------------------------------------------------------

  /** Putting a valid record under an existing number or the next one, and
      dropping that number from the invalid map (create, update), keeps the
      invariant. */
  lemma PutValidKeepsConsistent(recordMap: Records, invalidRecordMap: Records, locked: set<int>,
                                record: ContractorValue)
    requires Consistent(recordMap, invalidRecordMap, locked)
    requires record.flag == VALID && FIRST_RECORD_NO <= record.id <= |recordMap| + 1
    ensures Consistent(recordMap[record.id := record], invalidRecordMap - {record.id}, locked)
  {
    PutKeepsContiguous(recordMap, record);
    InvalidEntriesPutValid(recordMap, record);
  }

  /** Removing a number the map does not hold leaves it as it is. */
  lemma RemoveAbsent(m: Records, k: int)
    requires k !in m
    ensures m - {k} == m
  {
    assert (m - {k}).Keys == m.Keys;
  }

  /** Storing a valid record drops its number from the invalid entries. */
  lemma InvalidEntriesPutValid(m: Records, record: ContractorValue)
    requires record.flag == VALID
    ensures InvalidEntries(m[record.id := record]) == InvalidEntries(m) - {record.id}
  {
    var a, b := InvalidEntries(m[record.id := record]), InvalidEntries(m) - {record.id};
    assert a.Keys == b.Keys;
    assert forall k :: k in a ==> a[k] == b[k];
  }

  /** Flagging a record INVALID in both maps (delete) keeps the invariant. */
  lemma PutInvalidKeepsConsistent(recordMap: Records, invalidRecordMap: Records, locked: set<int>,
                                  record: ContractorValue)
    requires Consistent(recordMap, invalidRecordMap, locked)
    requires record.flag == INVALID && FIRST_RECORD_NO <= record.id <= |recordMap| + 1
    ensures Consistent(recordMap[record.id := record], invalidRecordMap[record.id := record], locked)
  {
    PutKeepsContiguous(recordMap, record);
    var m := recordMap[record.id := record];
    assert invalidRecordMap[record.id := record] == InvalidEntries(m);
  }

  lemma PutKeepsContiguous(recordMap: Records, record: ContractorValue)
    requires ContiguousIds(recordMap)
    requires FIRST_RECORD_NO <= record.id <= |recordMap| + 1
    ensures ContiguousIds(recordMap[record.id := record])
    ensures |recordMap[record.id := record]| == if record.id in recordMap then |recordMap| else |recordMap| + 1
  {
  }

  /** What `create(data)` answers once `getNextRecordNo` has chosen
      `recNo`: IllegalArgumentException for texts no contractor can be made
      of, a DuplicateKeyException when a valid record has the name and
      location, one with the write's DBException as cause when the write
      fails, else the number. */
  function CreateAnswer(recordMap: Records, data: seq<string>, recNo: int, ioFault: bool): Result<int, DbError> {
    match FromStrings(data)
    case Err(_) => Err(DbError.IllegalArgument)
    case Ok(v) =>
      if NameTaken(recordMap, v.name, v.location) then Err(DuplicateKey(Some(DuplicateKey(None))))
      else if ioFault then Err(DuplicateKey(Some(StoreFailed(DeviceFailure))))
      else Ok(recNo)
  }

  /** The valid map after `create(data)`: the new record under `recNo`
      unless the texts are refused or the name and location are taken. */
  function CreatedMap(recordMap: Records, data: seq<string>, recNo: int): Records {
    match FromStrings(data)
    case Err(_) => recordMap
    case Ok(v) => if NameTaken(recordMap, v.name, v.location) then recordMap else recordMap[recNo := v.(id := recNo)]
  }

  /** What `update(recNo, data)` answers: RecordNotFoundException for a
      missing number, one caused by another for a deleted record,
      IllegalArgumentException for texts no contractor can be made of, one
      caused by a DuplicateKeyException when another record has the name
      and location, one caused by the write's DBException when it fails. */
  function UpdateAnswer(recordMap: Records, invalidRecordMap: Records, recNo: int, data: seq<string>, ioFault: bool)
    : Outcome<DbError>
  {
    if recNo !in recordMap then Fail(RecordNotFound(None))
    else if recordMap[recNo].flag == INVALID then Fail(RecordNotFound(Some(RecordNotFound(None))))
    else
      match FromStrings(data)
      case Err(_) => Fail(DbError.IllegalArgument)
      case Ok(v) =>
        if !IntegrityOk(recordMap, invalidRecordMap, v.(id := recNo)) then Fail(RecordNotFound(Some(DuplicateKey(None))))
        else if ioFault then Fail(RecordNotFound(Some(StoreFailed(DeviceFailure))))
        else Pass
  }

  /** The valid map after `update(recNo, data)`: the new record under
      `recNo` when the update gets as far as the write. */
  function UpdatedMap(recordMap: Records, invalidRecordMap: Records, recNo: int, data: seq<string>): Records {
    if recNo !in recordMap || recordMap[recNo].flag == INVALID then recordMap
    else
      match FromStrings(data)
      case Err(_) => recordMap
      case Ok(v) =>
        if IntegrityOk(recordMap, invalidRecordMap, v.(id := recNo)) then recordMap[recNo := v.(id := recNo)]
        else recordMap
  }

  // ---------------------------------------------------------------------
  // The store
  // ---------------------------------------------------------------------

  /** `Data`, with the helper over the database file. */
  class Data {
    var recordMap: Records
    var invalidRecordMap: Records
    var lockedRecords: set<int>
    const dbHelper: DBHelper

    ghost predicate Valid()
      reads this
    {
      Consistent(recordMap, invalidRecordMap, lockedRecords)
    }

    /** The second half of the source constructor, once `loadAllRecords`
        has given `records`: every INVALID record is put into the invalid
        map. */
    constructor (dbHelper: DBHelper, records: Records)
      requires ContiguousIds(records)
      ensures this.dbHelper == dbHelper
      ensures recordMap == records && invalidRecordMap == InvalidEntries(records) && lockedRecords == {}
      ensures Valid()
    {
      var invalid: Records := map[];
      for id := FIRST_RECORD_NO to |records| + 1
        invariant forall k :: k in invalid <==> FIRST_RECORD_NO <= k < id && records[k].flag == INVALID
        invariant forall k :: k in invalid ==> invalid[k] == records[k]
      {
        var record := records[id];
        if record.flag == INVALID {
          invalid := invalid[record.id := record];
        }
      }
      assert forall k :: k in invalid <==> k in records && records[k].flag == INVALID;
      assert forall k :: k in invalid ==> invalid[k] == InvalidEntries(records)[k];
      assert invalid == InvalidEntries(records);
      this.dbHelper := dbHelper;
      recordMap := records;
      invalidRecordMap := invalid;
      lockedRecords := {};
    }

    /** `new Data(dbFilename)` on a file that exists or not and holds
        `contents`. The helper checks the header; `loadAllRecords` then
        reads every slot. An IOException while loading (`loadFault`) leaves
        an empty store; a bad flag byte aborts the constructor. */
    static method Open(fileExists: bool, contents: seq<byte>, loadFault: bool) returns (r: Result<Data, OpenError>)
      ensures !fileExists ==> r == Err(Init(FileMissing))
      ensures fileExists && ParseHeader(contents).Err? ==> r == Err(Init(ParseHeader(contents).error))
      ensures fileExists && ParseHeader(contents).Ok? && loadFault ==>
                && r.Ok? && fresh(r.value) && r.value.Valid()
                && r.value.recordMap == map[] && r.value.invalidRecordMap == map[]
                && r.value.lockedRecords == {}
      ensures fileExists && ParseHeader(contents).Ok? && !loadFault ==>
                var loaded := DecodeAll(contents, ParseHeader(contents).value);
                && (loaded.Err? ==> r == Err(CorruptFlag))
                && (loaded.Ok? ==>
                      && r.Ok? && fresh(r.value) && r.value.Valid()
                      && r.value.recordMap == loaded.value
                      && r.value.invalidRecordMap == InvalidEntries(loaded.value)
                      && r.value.lockedRecords == {}
                      && r.value.dbHelper.dbFile.contents == contents)
      ensures r.Ok? ==> r.value.dbHelper.firstRecordOffset == HEADER_LENGTH
    {
      ParseHeaderSpec(contents);
      var helper := DBHelper.Open(fileExists, contents);
      if helper.Err? {
        return Err(Init(helper.error));
      }
      if loadFault {
        var data := new Data(helper.value, map[]);
        return Ok(data);
      }
      var loaded := helper.value.LoadAllRecords();
      if loaded.Err? {
        DecodeAllSpec(contents, helper.value.firstRecordOffset);
        return Err(CorruptFlag);
      }
      LoadedIdsContiguous(contents, helper.value.firstRecordOffset);
      var data := new Data(helper.value, loaded.value);
      r := Ok(data);
    }

    /** `readRecord(recNo)`. */
    function ReadRecord(recNo: int): (r: Result<ContractorValue, DbError>)
      reads this
      ensures r == ReadRecordSpec(recordMap, recNo)
    {
      if recNo !in recordMap then Err(RecordNotFound(None))
      else if recordMap[recNo].flag == INVALID then Err(RecordNotFound(None))
      else Ok(recordMap[recNo])
    }

    /** `read(recNo)`: the field texts of a valid record. */
    function Read(recNo: int): (r: Result<seq<string>, DbError>)
      reads this
      ensures r.Ok? <==> recNo in recordMap && recordMap[recNo].flag == VALID
      ensures r.Ok? ==> r.value == FieldStrings(recordMap[recNo])
      ensures r.Err? ==> r.error == RecordNotFound(None)
    {
      match ReadRecord(recNo)
      case Ok(record) => Ok(FieldStrings(record))
      case Err(e) => Err(e)
    }

    /** `readAll()`: the values of the record map in order, less those
        equal to an invalid record. */
    method ReadAll() returns (list: seq<ContractorValue>)
      requires Valid()
      ensures list == ReadAllSpec(recordMap, invalidRecordMap, |recordMap|)
    {
      list := [];
      for id := FIRST_RECORD_NO to |recordMap| + 1
        invariant list == ReadAllSpec(recordMap, invalidRecordMap, id - 1)
      {
        var record := recordMap[id];
        if !ContainsValue(invalidRecordMap, record) {
          list := list + [record];
        }
      }
    }

    /** `find(criteria)`, a `null` criterion being `None`. */
    method Find(criteria: seq<Option<string>>) returns (r: Result<seq<int>, DbError>)
      requires Valid()
      ensures |criteria| != FIELDS_COUNT ==> r == Err(DbError.IllegalArgument)
      ensures |criteria| == FIELDS_COUNT ==>
                var ids := MatchingIds(ReadAllSpec(recordMap, invalidRecordMap, |recordMap|), criteria);
                r == if ids == [] then Err(RecordNotFound(None)) else Ok(ids)
    {
      if |criteria| != FIELDS_COUNT {
        return Err(DbError.IllegalArgument);
      }
      var recordList := ReadAll();
      var list := CollectMatches(recordList, criteria);
      if |list| <= 0 {
        return Err(RecordNotFound(None));
      }
      r := Ok(list);
    }

    /** The outer loop of `find`: the numbers of the matching records, in
        list order. */
    static method CollectMatches(recordList: seq<ContractorValue>, criteria: seq<Option<string>>)
      returns (list: seq<int>)
      requires |criteria| == FIELDS_COUNT
      ensures list == MatchingIds(recordList, criteria)
    {
      ghost var flags := MatchFlags(recordList, criteria);
      list := [];
      for i := 0 to |recordList|
        invariant list == Selected(recordList[..i], flags[..i])
      {
        var record := recordList[i];
        var matches := Matches(record, criteria);
        SelectedStep(recordList, flags, i);
        if matches {
          list := list + [record.id];
        }
      }
      assert recordList[..|recordList|] == recordList;
      assert flags[..|recordList|] == flags;
    }

    /** The inner loop of `find`: the criteria are checked field by field
        until one fails. */
    static method Matches(record: ContractorValue, criteria: seq<Option<string>>) returns (matches: bool)
      requires |criteria| == FIELDS_COUNT
      ensures matches == RecordMatches(record, criteria)
    {
      var strings := FieldStrings(record);
      matches := true;
      var k := 0;
      while k < |strings|
        invariant 0 <= k <= |strings|
        invariant matches
        invariant forall j :: 0 <= j < k ==> FieldMatches(strings[j], criteria[j])
      {
        if criteria[k].Some? {
          var datum := Normalize(strings[k]);
          if !StartsWith(datum, Normalize(criteria[k].value)) {
            matches := false;
            break;
          }
        }
        k := k + 1;
      }
    }

    /** `getNextRecordNo()`: some invalid number if there is one, otherwise
        the loop over the numbers in use, in whatever order, leaves one past
        the largest. */
    method GetNextRecordNo() returns (id: int)
      ensures NextRecordNoChoice(recordMap, invalidRecordMap, id)
    {
      if |invalidRecordMap| > 0 {
        HasElement(invalidRecordMap.Keys);
        id :| id in invalidRecordMap;
        return;
      }
      id := PastLargest(recordMap.Keys);
    }

    /** The loop of `getNextRecordNo` over the numbers in use, taken in any
        order: `max` ends one past the largest, and stays 1 when there is
        none. */
    static method PastLargest(ids: set<int>) returns (max: int)
      ensures max >= FIRST_RECORD_NO
      ensures forall k :: k in ids ==> k < max
      ensures max == FIRST_RECORD_NO || max - 1 in ids
    {
      max := FIRST_RECORD_NO;
      var keys := ids;
      while keys != {}
        invariant keys <= ids
        invariant max >= FIRST_RECORD_NO
        invariant forall k :: k in ids && k !in keys ==> k < max
        invariant max == FIRST_RECORD_NO || (max - 1 in ids && max - 1 !in keys)
        decreases |keys|
      {
        HasElement(keys);
        var i :| i in keys;
        if i >= max {
          max := i + 1;
        }
        keys := keys - {i};
      }
    }

    /** `checkDataIntegrity(record)`. */
    method CheckDataIntegrity(record: ContractorValue) returns (o: Outcome<DbError>)
      ensures IntegrityOk(recordMap, invalidRecordMap, record) ==> o == Pass
      ensures !IntegrityOk(recordMap, invalidRecordMap, record) ==> o == Fail(DuplicateKey(None))
    {
      if ContainsValue(recordMap, record) && !ContainsValue(invalidRecordMap, record) {
        if !(record.id in recordMap && SameRecord(record, recordMap[record.id])) {
          return Fail(DuplicateKey(None));
        }
      }
      o := Pass;
    }

    /** `isLocked(recNo)`: missing numbers raise RecordNotFoundException;
        deleted ones are present. */
    function IsLocked(recNo: int): (r: Result<bool, DbError>)
      reads this
      ensures r.Err? <==> recNo !in recordMap
      ensures r.Err? ==> r.error == RecordNotFound(None)
      ensures r.Ok? ==> (r.value <==> recNo in lockedRecords)
    {
      if recNo !in recordMap then Err(RecordNotFound(None))
      else Ok(recNo in lockedRecords)
    }

    /** `lock(recNo)`. The source waits while the record is locked by
        someone else; here the caller must hold no lock on it. */
    method Lock(recNo: int) returns (o: Outcome<DbError>)
      requires recNo !in lockedRecords
      modifies this
      ensures recordMap == old(recordMap) && invalidRecordMap == old(invalidRecordMap)
      ensures recNo !in recordMap ==> o == Fail(RecordNotFound(None)) && lockedRecords == old(lockedRecords)
      ensures recNo in recordMap ==> o == Pass && lockedRecords == old(lockedRecords) + {recNo}
      ensures o.Pass? ==> IsLocked(recNo) == Ok(true)
    {
      var locked := IsLocked(recNo);
      if locked.Err? {
        return Fail(locked.error);
      }
      lockedRecords := lockedRecords + {recNo};
      o := Pass;
    }

    /** `unlock(recNo)`. */
    method Unlock(recNo: int) returns (o: Outcome<DbError>)
      modifies this
      ensures recordMap == old(recordMap) && invalidRecordMap == old(invalidRecordMap)
      ensures recNo !in recordMap ==> o == Fail(RecordNotFound(None)) && lockedRecords == old(lockedRecords)
      ensures recNo in recordMap ==> o == Pass && lockedRecords == old(lockedRecords) - {recNo}
      ensures o.Pass? ==> IsLocked(recNo) == Ok(false)
    {
      if recNo !in recordMap {
        return Fail(RecordNotFound(None));
      }
      lockedRecords := lockedRecords - {recNo};
      o := Pass;
    }

    /** `execute(operation, record)`: the uniqueness check (not for
        DELETE), then both maps, then the file; a failure of the device
        becomes a DBException after the maps have changed, with the
        writes done before it left in the file. */
    method Execute(operation: Operation, record: ContractorValue, fault: Fault) returns (o: Outcome<DbError>)
      requires Valid()
      requires FIRST_RECORD_NO <= record.id <= |recordMap| + 1
      requires operation == DELETE <==> record.flag == INVALID
      modifies this, dbHelper.dbFile
      ensures Valid() && lockedRecords == old(lockedRecords)
      ensures operation != DELETE && !IntegrityOk(old(recordMap), old(invalidRecordMap), record) ==>
                && o == Fail(DuplicateKey(None))
                && recordMap == old(recordMap) && invalidRecordMap == old(invalidRecordMap)
                && dbHelper.dbFile.contents == old(dbHelper.dbFile.contents)
      ensures operation == DELETE || IntegrityOk(old(recordMap), old(invalidRecordMap), record) ==>
                && recordMap == old(recordMap)[record.id := record]
                && invalidRecordMap == (if operation == DELETE then old(invalidRecordMap)[record.id := record]
                                        else old(invalidRecordMap) - {record.id})
                && o == (if fault.NoFault? then Pass else Fail(StoreFailed(DeviceFailure)))
                && dbHelper.dbFile.contents
                   == StoredContents(old(dbHelper.dbFile.contents),
                                     SlotOffset(dbHelper.firstRecordOffset, record.id), record, fault)
    {
      if operation != DELETE {
        var check := CheckDataIntegrity(record);
        if check.Fail? {
          return check;
        }
      }
      if operation == DELETE {
        PutInvalidKeepsConsistent(recordMap, invalidRecordMap, lockedRecords, record);
      } else {
        PutValidKeepsConsistent(recordMap, invalidRecordMap, lockedRecords, record);
      }
      recordMap := recordMap[record.id := record];
      if operation == DELETE {
        invalidRecordMap := invalidRecordMap[record.id := record];
      } else {
        invalidRecordMap := invalidRecordMap - {record.id};
      }
      var stored := dbHelper.StoreRecord(record, fault);
      if stored.Fail? {
        return Fail(StoreFailed(stored.error));
      }
      o := Pass;
    }

    /** `create(data)`: the next free number, the new record, then
        `execute(CREATE)`; any DBException becomes a DuplicateKeyException
        with it as cause. `recNo` is the number `getNextRecordNo` chose. */
    method Create(data: seq<string>, fault: Fault) returns (r: Result<int, DbError>, ghost recNo: int)
      requires Valid()
      modifies this, dbHelper.dbFile
      ensures Valid() && lockedRecords == old(lockedRecords)
      ensures NextRecordNoChoice(old(recordMap), old(invalidRecordMap), recNo)
      ensures r == CreateAnswer(old(recordMap), data, recNo, fault.FailAfter?)
      ensures recordMap == CreatedMap(old(recordMap), data, recNo)
      ensures FromStrings(data).Err? ==>
                && r == Err(DbError.IllegalArgument)
                && recordMap == old(recordMap) && invalidRecordMap == old(invalidRecordMap)
                && dbHelper.dbFile.contents == old(dbHelper.dbFile.contents)
      ensures FromStrings(data).Ok? ==>
                var record := FromStrings(data).value.(id := recNo);
                && (NameTaken(old(recordMap), record.name, record.location) ==>
                      && r == Err(DuplicateKey(Some(DuplicateKey(None))))
                      && recordMap == old(recordMap) && invalidRecordMap == old(invalidRecordMap)
                      && dbHelper.dbFile.contents == old(dbHelper.dbFile.contents))
                && (!NameTaken(old(recordMap), record.name, record.location) ==>
                      && recordMap == old(recordMap)[recNo := record]
                      && invalidRecordMap == old(invalidRecordMap) - {recNo}
                      && r == (if fault.NoFault? then Ok(recNo) else Err(DuplicateKey(Some(StoreFailed(DeviceFailure)))))
                      && dbHelper.dbFile.contents
                         == StoredContents(old(dbHelper.dbFile.contents),
                                           SlotOffset(dbHelper.firstRecordOffset, recNo), record, fault))
    {
      var id := GetNextRecordNo();
      recNo := id;
      NextRecordNoIsFree(recordMap, invalidRecordMap, id);
      var created := FromStrings(data);
      if created.Err? {
        return Err(DbError.IllegalArgument), recNo;
      }
      var record := created.value.(id := id);
      IntegrityOnFreeNumber(recordMap, invalidRecordMap, record);
      var e := Execute(CREATE, record, fault);
      if e.Fail? {
        return Err(DuplicateKey(Some(e.error))), recNo;
      }
      r := Ok(id);
    }

    /** `update(recNo, data)`: lock, read, replace, unlock. Every DBException
        of the `try` becomes a RecordNotFoundException with it as cause; an
        exception from the `unlock` in `finally` replaces whatever was on
        its way out. */
    method Update(recNo: int, data: seq<string>, fault: Fault) returns (o: Outcome<DbError>)
      requires Valid() && recNo !in lockedRecords
      modifies this, dbHelper.dbFile
      ensures Valid() && lockedRecords == old(lockedRecords)
      ensures o == UpdateAnswer(old(recordMap), old(invalidRecordMap), recNo, data, fault.FailAfter?)
      ensures recordMap == UpdatedMap(old(recordMap), old(invalidRecordMap), recNo, data)
      ensures recNo !in old(recordMap) ==>
                && o == Fail(RecordNotFound(None))
                && recordMap == old(recordMap) && invalidRecordMap == old(invalidRecordMap)
                && dbHelper.dbFile.contents == old(dbHelper.dbFile.contents)
      ensures recNo in old(recordMap) && old(recordMap)[recNo].flag == INVALID ==>
                && o == Fail(RecordNotFound(Some(RecordNotFound(None))))
                && recordMap == old(recordMap) && invalidRecordMap == old(invalidRecordMap)
                && dbHelper.dbFile.contents == old(dbHelper.dbFile.contents)
      ensures old(ReadRecord(recNo)).Ok? && FromStrings(data).Err? ==>
                && o == Fail(DbError.IllegalArgument)
                && recordMap == old(recordMap) && invalidRecordMap == old(invalidRecordMap)
                && dbHelper.dbFile.contents == old(dbHelper.dbFile.contents)
      ensures old(ReadRecord(recNo)).Ok? && FromStrings(data).Ok? ==>
                var record := FromStrings(data).value.(id := recNo);
                && (!IntegrityOk(old(recordMap), old(invalidRecordMap), record) ==>
                      && o == Fail(RecordNotFound(Some(DuplicateKey(None))))
                      && recordMap == old(recordMap) && invalidRecordMap == old(invalidRecordMap)
                      && dbHelper.dbFile.contents == old(dbHelper.dbFile.contents))
                && (IntegrityOk(old(recordMap), old(invalidRecordMap), record) ==>
                      && recordMap == old(recordMap)[recNo := record]
                      && invalidRecordMap == old(invalidRecordMap)
                      && o == (if fault.NoFault? then Pass else Fail(RecordNotFound(Some(StoreFailed(DeviceFailure)))))
                      && dbHelper.dbFile.contents
                         == StoredContents(old(dbHelper.dbFile.contents),
                                           SlotOffset(dbHelper.firstRecordOffset, recNo), record, fault))
    {
      o := Pass;
      var locked := Lock(recNo);
      if locked.Fail? {
        o := Fail(RecordNotFound(Some(locked.error)));
      } else {
        var read := ReadRecord(recNo);
        if read.Err? {
          o := Fail(RecordNotFound(Some(read.error)));
        } else {
          var created := FromStrings(data);
          if created.Err? {
            o := Fail(DbError.IllegalArgument);
          } else {
            var record := created.value.(id := recNo);
            assert recNo !in invalidRecordMap;
            RemoveAbsent(invalidRecordMap, recNo);
            var e := Execute(UPDATE, record, fault);
            if e.Fail? {
              o := Fail(RecordNotFound(Some(e.error)));
            }
          }
        }
      }
      var unlocked := Unlock(recNo);
      if unlocked.Fail? {
        o := unlocked;
      }
    }

    /** `delete(recNo)`: lock, read, flag INVALID, store, unlock, with the
        same exception handling as `update`. */
    method Delete(recNo: int, fault: Fault) returns (o: Outcome<DbError>)
      requires Valid() && recNo !in lockedRecords
      modifies this, dbHelper.dbFile
      ensures Valid() && lockedRecords == old(lockedRecords)
      ensures recNo !in old(recordMap) ==>
                && o == Fail(RecordNotFound(None))
                && recordMap == old(recordMap) && invalidRecordMap == old(invalidRecordMap)
                && dbHelper.dbFile.contents == old(dbHelper.dbFile.contents)
      ensures recNo in old(recordMap) && old(recordMap)[recNo].flag == INVALID ==>
                && o == Fail(RecordNotFound(Some(RecordNotFound(None))))
                && recordMap == old(recordMap) && invalidRecordMap == old(invalidRecordMap)
                && dbHelper.dbFile.contents == old(dbHelper.dbFile.contents)
      ensures old(ReadRecord(recNo)).Ok? ==>
                var deleted := old(recordMap)[recNo].(flag := INVALID);
                && recordMap == old(recordMap)[recNo := deleted]
                && invalidRecordMap == old(invalidRecordMap)[recNo := deleted]
                && invalidRecordMap.Keys == old(invalidRecordMap).Keys + {recNo}
                && ReadRecord(recNo) == Err(RecordNotFound(None))
                && o == (if fault.NoFault? then Pass else Fail(RecordNotFound(Some(StoreFailed(DeviceFailure)))))
                && dbHelper.dbFile.contents
                   == StoredContents(old(dbHelper.dbFile.contents),
                                     SlotOffset(dbHelper.firstRecordOffset, recNo), deleted, fault)
    {
      o := Pass;
      var locked := Lock(recNo);
      if locked.Fail? {
        o := Fail(RecordNotFound(Some(locked.error)));
      } else {
        var read := ReadRecord(recNo);
        if read.Err? {
          o := Fail(RecordNotFound(Some(read.error)));
        } else {
          var record := read.value.(flag := INVALID);
          var e := Execute(DELETE, record, fault);
          if e.Fail? {
            o := Fail(RecordNotFound(Some(e.error)));
          }
        }
      }
      var unlocked := Unlock(recNo);
      if unlocked.Fail? {
        o := unlocked;
      }
    }
  }

  /** A set that is not empty has an element. */
  lemma HasElement(s: set<int>)
    requires s != {}
    ensures exists x :: x in s
  {
    if forall x :: x !in s {
      assert false;
    }
  }

  /** The records `loadAllRecords` returns are numbered 1..n, each under
      its own number. */
  lemma LoadedIdsContiguous(c: seq<byte>, firstRecordOffset: nat)
    requires DecodeAll(c, firstRecordOffset).Ok?
    ensures ContiguousIds(DecodeAll(c, firstRecordOffset).value)
  {
    DecodeAllSpec(c, firstRecordOffset);
    var m := DecodeAll(c, firstRecordOffset).value;
    SizeOfRange(m.Keys, SlotCount(c, firstRecordOffset));
  }

  /** A set holding exactly 1..n has n elements. */
  lemma {:induction false} SizeOfRange(s: set<int>, n: nat)
    requires forall k :: k in s <==> FIRST_RECORD_NO <= k <= n
    ensures |s| == n
  {
    if n == 0 {
      assert forall k :: k !in s;
      assert s == {};
    } else {
      var t := s - {n};
      SizeOfRange(t, n - 1);
      assert s == t + {n};
    }
  }
}
