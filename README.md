# SCJD contractor database — a Dafny model

This project models the storage core of the Sun Certified Java Developer
assignment "URLyBird/Bodgitt & Scarper" as implemented in `pbielicki/SCJD`:

- the fixed-length binary database file: a header (magic cookie 513,
  record length 182, six field descriptions) followed by slots made of one
  flag byte and 182 bytes of Latin-1 text (`DBHelper`, `DBMetaInfo`);
- the contractor record (`Contractor` with the `id`/`flag` it inherits from
  `Persistent`), its padded setters and its `toStrings` row form;
- the in-memory record store `Data`: the record map, the map of deleted
  ("invalid") records, the lock set, `read`, `readAll`, `find`, `create`,
  `update`, `delete`, `lock`/`unlock`/`isLocked`, the duplicate-key rule and
  record-number reuse;
- the local DAO `ContractorLocalDao`: `findById`, `load` with a filter and
  comparison operators, `refresh`, `remove`, `store`, `update`, and the way
  each translates the store's exceptions into DAO exceptions;
- the field comparators (`TextComparator`, `IntegerComparator`, the money
  comparator) and the caching `ComparatorFactory`;
- `StringHelper` (`setStringLength`, `intValue`, `toString`) and the GUI's
  `ContractorFilter` (availability, the filter contractor, per-field
  operators).

Pure code is modelled as datatypes, functions and lemmas. Objects whose
fields change in place are classes:
- `Contractor`;
- `Data`;
- `DBHelper` over a `RandomAccessFile` class holding the file bytes and the
  file pointer;
- `ComparatorFactory`;
- `ContractorFilter`;
- `ContractorLocalDao`.

Each method's `ensures` ties its result and new state to a specification
function, and lemmas prove what those functions promise:
- the header is accepted exactly when it is the canonical 70 bytes;
- storing a record and loading it back gives the same fields;
- a store touches only its own slot, and a store a device fault stops
  writes only a prefix of it;
- `find` returns exactly the valid matching ids, in increasing order;
- `load` returns exactly the valid records that pass the filter;
- the maps stay consistent;
- the comparators behave as orders;
- the string round trips hold (`intValue(toString(x)) == x`).

Record ids are always `1..n`, one for each slot of the file, and the
store's listings follow ascending ids.

Two choices of the store are stated as the code makes them:
- `getNextRecordNo` reuses whichever deleted number the key set of the
  invalid map yields first, not necessarily the smallest. Only when
  nothing is deleted does it take one past the largest id.
  `Db.NextRecordNoChoice` states this choice.
- `lock` checks the number through `isLocked`, which looks it up in the
  map of all records, so it accepts a deleted record number as well as a
  valid one.

## Model

| member | source | states |
|---|---|---|
| `DBMetaInfo.GetFieldNo` | src/suncertify/db/domain/DBMetaInfo.java:91-93 | the column of a field name, matched case-insensitively; -1 exactly when the name is none of the six |
| `DBMetaInfo.GetFieldType` | src/suncertify/db/domain/DBMetaInfo.java:101-103 | the column's type: TEXT for name, location and specialties, INTEGER for size and owner, MONEY for rate |
| `DBMetaInfo.BuildFieldLengthsMap` | src/suncertify/db/domain/DBMetaInfo.java:123-128 | the map built in a loop sends each field name to its field length, and has no other key |
| `DBMetaInfo.RecordLengthIsSumOfFields` | src/suncertify/db/domain/DBMetaInfo.java:30 | the declared record length 182 is the sum of the six field lengths |
| `DBMetaInfo.SchemaTablesAligned` | src/suncertify/db/domain/DBMetaInfo.java:75-113 | the name, length and type tables all have FIELDS_COUNT = 6 entries |
| `DBMetaInfo.GetFieldNoOfEachField` | src/suncertify/db/domain/DBMetaInfo.java:91-93 | looking up the i-th field name gives i back |
| `DBMetaInfo.FieldNamesDistinct` | src/suncertify/db/domain/DBMetaInfo.java:75-76 | the six field names are pairwise distinct, so the lookup is unambiguous |
| `DBMetaInfo.FlagOfOrdinal` | src/suncertify/db/domain/RecordFlagEnum.java:12-14 | flag byte 0 is VALID, 1 is INVALID, every other byte has no flag |
| `StringHelper.SetStringLength` | src/suncertify/core/StringHelper.java:81-85 | the result has exactly the requested length; it is the text cut or padded with spaces, each NUL replaced by a space |
| `StringHelper.SetStringLengthIdempotent` | src/suncertify/core/StringHelper.java:81-85 | padding to a length twice is the same as once |
| `StringHelper.SetStringLengthCuts` | src/suncertify/core/StringHelper.java:81-85 | a text at least as long as the length is cut to its prefix, each NUL becoming a space |
| `StringHelper.SetStringLengthPads` | src/suncertify/core/StringHelper.java:81-85 | a shorter text is kept, each NUL becoming a space, and followed by spaces only |
| `StringHelper.TrimSetStringLength` | src/suncertify/core/StringHelper.java:81-85 | a trimmed NUL-free text padded to at least its own length trims back to itself |
| `StringHelper.IntValueOr` | src/suncertify/core/StringHelper.java:59-65 | the 32-bit integer parsed from the trimmed text, or the default when that text is not a decimal int in range |
| `StringHelper.IntValue` | src/suncertify/core/StringHelper.java:40-42 | the two-argument form with default 0 |
| `StringHelper.IntValueOfBlank` | src/suncertify/core/StringHelper.java:59-65 | a text of trimmable characters only yields the default |
| `StringHelper.ToString` | src/suncertify/core/StringHelper.java:100-105 | empty exactly when the value is the empty value; otherwise a trimmed decimal that parses back to the value |
| `StringHelper.IntValueToStringRoundTrip` | src/suncertify/core/StringHelper.java:40-105 | intValue(toString(x, e), e) == x for every 32-bit x |
| `StringHelper.IntValuePaddedRoundTrip` | src/suncertify/core/StringHelper.java:40-105 | the round trip survives padding the decimal with spaces, as the owner column does |
| `StringHelper.DecimalRoundTrip` | src/suncertify/core/StringHelper.java:59-65 | parsing the decimal form of any int gives it back |
| `StringHelper.TrimBlank` | src/suncertify/core/StringHelper.java:59-65 | a text of trimmable characters only trims to the empty text |
| `StringHelper.TrimTrimmed` | src/suncertify/core/StringHelper.java:59-65 | trim leaves a text without trimmable ends unchanged |
| `Domain.MoneyValueOf` | src/suncertify/db/domain/Contractor.java:88-100 | a rate text is accepted exactly when it has the three characters the currency parse needs |
| `Domain.NewContractor` | src/suncertify/db/domain/Contractor.java:74-79 | a new contractor is valid and unsaved, with padded name and location, blank specialties, and no owner |
| `Domain.FieldStrings` | src/suncertify/db/domain/Contractor.java:278-292 | six strings; size, rate and owner are always exactly as long as their columns and free of NUL, and for a well-formed record so are all six |
| `Domain.FromStrings` | src/suncertify/db/domain/Contractor.java:88-100 | the row is accepted exactly when it has six strings and a readable rate; the result is well-formed, unsaved and VALID |
| `Domain.FromFieldStringsRoundTrip` | src/suncertify/db/domain/Contractor.java:88-100 | rebuilding a well-formed record from its own strings gives it back unsaved and VALID, with the rate text padded to its column, when size and owner fit their columns |
| `Domain.FieldStringsStable` | src/suncertify/db/domain/Contractor.java:278-292 | toStrings of the rebuilt record equals toStrings of the original |
| `Domain.OwnerFieldBlank` | src/suncertify/db/domain/Contractor.java:202-204 | the owner column is blank exactly when the contractor is available |
| `Domain.SameRecordIsEquivalence` | src/suncertify/db/domain/Contractor.java:105-120 | equals is reflexive, symmetric and transitive |
| `Domain.SameRecordIgnoresDetails` | src/suncertify/db/domain/Contractor.java:105-120 | equals ignores specialties, size, rate, owner and id |
| `Domain.Contractor.constructor` | src/suncertify/db/domain/Contractor.java:74-79 | the object's value is the new contractor for that name and location |
| `Domain.Contractor.Empty` | src/suncertify/db/domain/Contractor.java:62-64 | the object's value is the new contractor with empty name and location |
| `Domain.Contractor.OfStrings` | src/suncertify/db/domain/Contractor.java:88-100 | fails exactly as the row parse fails; otherwise a fresh object holding the parsed record |
| `Domain.Contractor.SetName` | src/suncertify/db/domain/Contractor.java:222-224 | only the name changes, to the text padded to 32 |
| `Domain.Contractor.SetLocation` | src/suncertify/db/domain/Contractor.java:212-214 | only the location changes, to the text padded to 64 |
| `Domain.Contractor.SetSpecialties` | src/suncertify/db/domain/Contractor.java:262-264 | only the specialties change, to the text padded to 64 |
| `Domain.Contractor.SetSize` | src/suncertify/db/domain/Contractor.java:252-254 | only the size changes |
| `Domain.Contractor.SetRate` | src/suncertify/db/domain/Contractor.java:242-244 | only the rate changes |
| `Domain.Contractor.SetOwner` | src/suncertify/db/domain/Contractor.java:232-234 | only the owner changes |
| `Domain.Contractor.Free` | src/suncertify/db/domain/Contractor.java:125-127 | only the owner changes, to unsaved, and the contractor is then available |
| `Domain.Contractor.SetId` | src/suncertify/db/domain/Persistent.java:69-71 | only the id changes |
| `Domain.Contractor.SetFlag` | src/suncertify/db/domain/Persistent.java:62-64 | only the flag changes |
| `Domain.Contractor.ToStrings` | src/suncertify/db/domain/Contractor.java:278-292 | a fresh array holding the six row strings of the current value |
| `Domain.NewObjectIsUnsaved` | src/suncertify/db/domain/Persistent.java:20-57 | a new object is VALID with the unsaved id, so isStored is false |
| `Comparators.TextCompareZeroIff` | src/suncertify/db/dao/comparator/TextComparator.java:14-16 | compareToIgnoreCase is 0 exactly when the upper-cased texts are equal |
| `Comparators.TextCompareAntisymmetric` | src/suncertify/db/dao/comparator/TextComparator.java:14-16 | swapping the operands negates the result |
| `Comparators.TextCompareReflexive` | src/suncertify/db/dao/comparator/TextComparator.java:14-16 | every text compares equal to itself |
| `Comparators.TextCompareTransitive` | src/suncertify/db/dao/comparator/TextComparator.java:14-16 | a < b and b < c give a < c |
| `Comparators.TextCompareIgnoresCase` | src/suncertify/db/dao/comparator/TextComparator.java:14-16 | texts equal up to case compare the same against any third text |
| `Comparators.TextComparePrefix` | src/suncertify/db/dao/comparator/TextComparator.java:14-16 | a proper prefix, up to case, compares by length difference, hence below |
| `Comparators.IntegerOperand` | src/suncertify/db/dao/comparator/IntegerComparator.java:21-33 | a blank operand is 0, any other is the int parsed from its trimmed text, or nothing |
| `Comparators.IntegerCompare` | src/suncertify/db/dao/comparator/IntegerComparator.java:17-40 | the result is -1, 0 or 1 |
| `Comparators.IntegerCompareParsed` | src/suncertify/db/dao/comparator/IntegerComparator.java:25-35 | for two parsable operands, the sign of the result is the order of the two ints |
| `Comparators.IntegerCompareBlank` | src/suncertify/db/dao/comparator/IntegerComparator.java:22-32 | a blank operand compares as "0" |
| `Comparators.IntegerCompareUnparsable` | src/suncertify/db/dao/comparator/IntegerComparator.java:37-39 | an unparsable operand makes the comparison 0, on either side |
| `Comparators.IntegerCompareReflexive` | src/suncertify/db/dao/comparator/IntegerComparator.java:17-40 | every text compares 0 with itself |
| `Comparators.IntegerCompareAntisymmetric` | src/suncertify/db/dao/comparator/IntegerComparator.java:17-40 | swapping the operands negates the result |
| `Comparators.IntegerCompareTransitive` | src/suncertify/db/dao/comparator/IntegerComparator.java:17-40 | strict order among three operands is transitive |
| `Comparators.MoneyCompare` | src/suncertify/db/dao/comparator/ComparatorFactory.java:47-49 | fails exactly when a rate text is too short to parse; otherwise the sign of the amount order |
| `Comparators.KindFor` | src/suncertify/db/dao/comparator/ComparatorFactory.java:35-50 | TEXT, INTEGER and MONEY get the text, integer and money comparator, one each |
| `Comparators.CompareAs` | src/suncertify/db/dao/comparator/ComparatorFactory.java:35-50 | each comparator kind compares as its comparator class does |
| `Comparators.ComparatorFactory.constructor` | src/suncertify/db/dao/comparator/ComparatorFactory.java:22 | the cache starts empty |
| `Comparators.ComparatorFactory.GetComparator` | src/suncertify/db/dao/comparator/ComparatorFactory.java:31-58 | the comparator of the type's kind; the cached instance when there is one, else a fresh one now cached |
| `Comparators.RepeatedCallsShareInstance` | src/suncertify/db/dao/comparator/ComparatorFactory.java:31-58 | two calls for one type return the same instance and only that type is added to the cache |
| `ContractorGui.ContractorFilter.constructor` | src/suncertify/gui/contractor/ContractorFilter.java:74-81 | availability ALL, an empty contractor, operators STARTS_WITH except CONTAINS for specialties and GREATER_OR_EQUAL for size and rate |
| `ContractorGui.ContractorFilter.WithContractor` | src/suncertify/gui/contractor/ContractorFilter.java:89-92 | the default operators and availability, with the given contractor |
| `ContractorGui.ContractorFilter.SetAvailability` | src/suncertify/gui/contractor/ContractorFilter.java:147-149 | only the availability changes |
| `ContractorGui.ContractorFilter.GetFilter` | src/suncertify/gui/contractor/ContractorFilter.java:117-119 | a fresh array with the filter contractor's row strings |
| `ContractorGui.ContractorFilter.GetOperator` | src/suncertify/gui/contractor/ContractorFilter.java:128-130 | the operator of the named field; no operator, where the source fails on the index, exactly for unknown names |
| `ContractorGui.ContractorFilter.SetOperator` | src/suncertify/gui/contractor/ContractorFilter.java:159-161 | for a known field only that field's slot changes, and reading it back gives the new operator; an unknown name changes nothing |
| `ContractorGui.ContractorFilter.GetOperators` | src/suncertify/gui/contractor/ContractorFilter.java:137-139 | a fresh copy with the same operators |
| `ContractorGui.DefaultFilterForwardsPrefixFields` | src/suncertify/gui/contractor/ContractorFilter.java:74-81 | with the default operators, only name, location and owner criteria reach the store's find |
| `ContractorGui.DefaultSpecialtiesAcceptAll` | src/suncertify/gui/contractor/ContractorFilter.java:78 | a blank specialties pattern under CONTAINS accepts every record |
| `Bytes.DecodeEncode` | src/suncertify/core/DBHelper.java:249-252 | encoding a Latin-1 text and decoding it gives the text back |
| `Bytes.EncodeDecode` | src/suncertify/core/DBHelper.java:160-168 | decoding bytes and encoding the text gives the bytes back |
| `Bytes.IntBytesOf` | src/suncertify/core/DBHelper.java:79-84 | four bytes read as a non-negative big-endian int are written back as the same four bytes |
| `Bytes.ShortBytesOf` | src/suncertify/core/DBHelper.java:85-103 | two bytes read as a non-negative big-endian short are written back as the same two bytes |
| `Bytes.ReadAtWritten` | src/suncertify/core/DBHelper.java:249-252 | reading the written range returns exactly the written bytes |
| `Bytes.RandomAccessFile.Seek` | src/suncertify/core/DBHelper.java:232-237 | a negative offset fails and leaves the pointer; otherwise the pointer moves there |
| `Bytes.RandomAccessFile.ReadInt` | src/suncertify/core/DBHelper.java:79-84 | the big-endian int at the pointer, or end of file with fewer than four bytes left |
| `Bytes.RandomAccessFile.ReadShort` | src/suncertify/core/DBHelper.java:85-103 | the big-endian short at the pointer, or end of file |
| `Bytes.RandomAccessFile.ReadByte` | src/suncertify/core/DBHelper.java:160 | the byte at the pointer, or end of file |
| `Bytes.RandomAccessFile.Read` | src/suncertify/core/DBHelper.java:165-166 | reads up to the buffer length, fewer at the end of the file, and advances by what was read |
| `Bytes.RandomAccessFile.Write` | src/suncertify/core/DBHelper.java:251 | the bytes overwrite the file at the pointer, extending it when needed |
| `Storage.HeaderLength` | src/suncertify/core/DBHelper.java:79-114 | the canonical header is 4+4+2 bytes plus, per field, 2 + name length + 2, which is 70 |
| `Storage.ParseHeaderSpec` | src/suncertify/core/DBHelper.java:76-114 | the header is accepted exactly when the file starts with the canonical 70 bytes, and the first record offset is then 70 |
| `Storage.ParseEntriesOfBytes` | src/suncertify/core/DBHelper.java:97-108 | the field table loop accepts the canonical name and length entries and stops right after them |
| `Storage.BytesOfParseEntries` | src/suncertify/core/DBHelper.java:97-108 | whatever the field table loop accepts is the canonical entries, byte for byte |
| `Storage.SlotOffsetsTile` | src/suncertify/core/DBHelper.java:232-237 | slot 1 starts at the first record offset and each slot starts 183 bytes after the previous one, without overlap |
| `Storage.SlotOffsetAsWrittenAgrees` | src/suncertify/core/DBHelper.java:232-237 | the 32-bit product of the source equals the intended offset while the product fits in an int |
| `Storage.SlotOffsetOverflows` | src/suncertify/core/DBHelper.java:232-237 | at record 11734885 the source's offset is -2147483454 where 2147483842 is intended |
| `Storage.FieldOffsetsEndAtRecordLength` | src/suncertify/core/DBHelper.java:164-169 | the six fields read one after another end exactly at the record length |
| `Storage.DecodeSlot` | src/suncertify/core/DBHelper.java:206-220 | a slot decodes exactly when its flag byte exists and is 0 or 1; the record then has the given id, that flag and padded texts |
| `Storage.DecodeAllSpec` | src/suncertify/core/DBHelper.java:153-181 | loading succeeds exactly when every slot's flag is readable; the map then has keys 1..n and slot k at key k |
| `Storage.StoreThenLoad` | src/suncertify/core/DBHelper.java:195-266 | after storing a Latin-1 record, loading its number gives a record with the same id, flag and row strings |
| `Storage.StoreKeepsOtherSlots` | src/suncertify/core/DBHelper.java:248-266 | storing one record, whether all seven writes happen or a device fault stops them part way, leaves the decoding of every later slot, and of every earlier slot the file holds in full, unchanged |
| `Storage.StoreFillsEarlierGap` | src/suncertify/core/DBHelper.java:248-266 | an earlier slot beyond the end of the file does change: storing record 2 into a file holding only the header turns slot 1 from end of file into a VALID record of zero bytes |
| `Storage.DecodeSlotLocal` | src/suncertify/core/DBHelper.java:206-220 | decoding a slot depends only on its own 183 bytes and on where the file ends inside it |
| `Storage.SlotBytesBeforePrefix` | src/suncertify/core/DBHelper.java:248-253 | the bytes of the writes done before a fault are a proper prefix of the slot's 183 bytes: the flag byte and the fields before the failing one |
| `Storage.FailedStoreWritesSlotPrefix` | src/suncertify/core/DBHelper.java:248-253 | a store stopped by a fault writes that prefix at the slot, grows the file only up to its end, and changes no other byte |
| `Storage.StoreWritesOneSlot` | src/suncertify/core/DBHelper.java:263-266 | a store that runs to the end changes only the 183 bytes of the record's own slot |
| `Storage.SlotBytesLength` | src/suncertify/core/DBHelper.java:248-253 | a well-formed record is written as exactly 183 bytes |
| `Storage.DBHelper.Open` | src/suncertify/core/DBHelper.java:64-120 | a missing file, a wrong cookie, wrong meta info or a wrong field table each give their own initialization error; otherwise a fresh helper over the file's bytes whose first record offset is where the header ends |
| `Storage.DBHelper.SeekToRecord` | src/suncertify/core/DBHelper.java:232-237 | moves the pointer to the slot's offset computed without 32-bit overflow (the corrected offset of the finding below), failing on a negative one |
| `Storage.DBHelper.ReadFieldValues` | src/suncertify/core/DBHelper.java:209-215 | the six field texts at the pointer, and the pointer advanced by the record length |
| `Storage.DBHelper.ReadSlot` | src/suncertify/core/DBHelper.java:206-220 | the steps loadRecord and each turn of loadAllRecords share: the result is the slot decoded at the file pointer (end of file when the flag byte is missing), the file is unchanged, and the pointer moves past the flag byte and the 182 record bytes, or to the end of the file |
| `Storage.DBHelper.LoadRecord` | src/suncertify/core/DBHelper.java:195-221 | an illegal-argument error below record 1, end of file past the data, a bad-flag error for an unknown flag byte, otherwise the decoded slot |
| `Storage.DBHelper.LoadAllRecords` | src/suncertify/core/DBHelper.java:153-181 | the map of every slot up to end of file, or the bad-flag failure |
| `Storage.DBHelper.StoreRecord` | src/suncertify/core/DBHelper.java:263-266 | a negative slot offset fails before anything is written; otherwise the record's 183 bytes replace its slot, or, when a device fault stops the seven writes, the writes before the fault stay in the file and a device failure is reported |
| `Storage.DBHelper.StoreNext` | src/suncertify/core/DBHelper.java:248-253 | the flag byte and the six encoded strings are written at the pointer, one write after another, up to the write a device fault stops |
| `Storage.DBHelper.WriteSlotPrefix` | src/suncertify/core/DBHelper.java:248-253 | the flag byte followed by the given strings' bytes is written at the pointer |
| `Storage.DBHelper.WriteStrings` | src/suncertify/core/DBHelper.java:250-252 | the strings' bytes, one after another, are written at the pointer, and the pointer moves past them |
| `Db.InvalidEntries` | src/suncertify/db/Data.java:73-77 | the invalid map holds exactly the INVALID records, under their own keys |
| `Db.ReadRecordSpec` | src/suncertify/db/Data.java:92-108 | a record is returned exactly when it exists and is VALID, else RecordNotFound |
| `Db.ContainsInvalidIffFlagged` | src/suncertify/db/Data.java:98-103 | the record's value is among the invalid ones exactly when its flag is INVALID |
| `Db.ReadAllIsValidRecords` | src/suncertify/db/Data.java:120-124 | readAll lists every VALID record, only VALID records, in increasing id order |
| `Db.MatchingIdsOfValidList` | src/suncertify/db/Data.java:166-208 | the ids selected from the valid list are exactly the valid records matching the criteria, increasing |
| `Db.FindFindsValidMatches` | src/suncertify/db/Data.java:166-208 | find's ids are exactly the VALID records whose non-null criteria are case-insensitive prefixes of their trimmed fields, increasing |
| `Db.IntegrityRefusesOnlyOthers` | src/suncertify/db/Data.java:237-244 | a record is refused exactly when another VALID record has its name and location and its own slot does not already hold an equal record |
| `Db.IntegrityOnFreeNumber` | src/suncertify/db/Data.java:237-244 | on a free or deleted number the check refuses exactly a taken name and location |
| `Db.NextRecordNoIsFree` | src/suncertify/db/Data.java:252-265 | the chosen number is at least 1, free or deleted, at most one past the largest, and one past the largest when nothing is deleted |
| `Db.NextRecordNoOfEmptyStore` | src/suncertify/db/Data.java:252-265 | an empty store numbers its first record 1 |
| `Db.NextRecordNoReusesDeleted` | src/suncertify/db/Data.java:252-265 | with a single deleted record its number is reused |
| `Db.PutValidKeepsConsistent` | src/suncertify/db/Data.java:336-356 | writing a VALID record keeps the invalid map equal to the INVALID entries and ids contiguous |
| `Db.PutInvalidKeepsConsistent` | src/suncertify/db/Data.java:336-356 | writing a deleted record keeps the maps consistent |
| `Db.PutKeepsContiguous` | src/suncertify/db/Data.java:336-356 | writing at a number up to one past the largest keeps ids 1..n |
| `Db.Data.constructor` | src/suncertify/db/Data.java:65-81 | the record map is the loaded one, the invalid map its INVALID entries, nothing is locked |
| `Db.Data.Open` | src/suncertify/db/Data.java:65-81 | initialization errors pass through, an unreadable flag fails, an I/O fault while loading leaves an empty store, otherwise the loaded records; the records start after the 70-byte header |
| `Db.KeptRecordsAreSaved` | src/suncertify/db/domain/DBMetaInfo.java:133-138 | numbers start at 1, one above the unsaved number 0, so no record the store keeps is keyed by the unsaved number and every one counts as saved |
| `Db.Data.ReadRecord` | src/suncertify/db/Data.java:92-108 | the record when it exists and is VALID, else RecordNotFound |
| `Db.Data.Read` | src/suncertify/db/Data.java:113-115 | the VALID record's row strings, else RecordNotFound |
| `Db.Data.ReadAll` | src/suncertify/db/Data.java:120-124 | the VALID records in increasing id order |
| `Db.Data.Find` | src/suncertify/db/Data.java:166-208 | an illegal argument unless six criteria; RecordNotFound when nothing matches; otherwise the matching ids |
| `Db.Data.Matches` | src/suncertify/db/Data.java:179-189 | the inner loop accepts a record exactly when every non-null criterion matches |
| `Db.Data.CollectMatches` | src/suncertify/db/Data.java:170-193 | the outer loop collects the matching ids in list order |
| `Db.Data.GetNextRecordNo` | src/suncertify/db/Data.java:252-265 | a deleted number when there is one, else one past the largest number |
| `Db.Data.PastLargest` | src/suncertify/db/Data.java:258-263 | one more than the largest key, or 1 for no keys |
| `Db.Data.CheckDataIntegrity` | src/suncertify/db/Data.java:237-244 | passes exactly when the integrity rule holds, else DuplicateKey |
| `Db.Data.IsLocked` | src/suncertify/db/Data.java:320-326 | RecordNotFound for an unknown number, else whether the number is locked |
| `Db.Data.Lock` | src/suncertify/db/Data.java:292-303 | an unknown number fails; otherwise the number joins the lock set and isLocked says so |
| `Db.Data.Unlock` | src/suncertify/db/Data.java:308-315 | an unknown number fails; otherwise the number leaves the lock set |
| `Db.Data.Execute` | src/suncertify/db/Data.java:336-356 | a duplicate changes nothing; otherwise both maps are updated and the slot written, or, on a device fault, a store failure reported with the writes before the fault left in the file |
| `Db.Data.Create` | src/suncertify/db/Data.java:213-226 | a bad row is an illegal argument; a taken name and location a wrapped DuplicateKey; otherwise the record is stored at the chosen number, which is returned, or a device fault is wrapped and leaves the writes before it |
| `Db.Data.Update` | src/suncertify/db/Data.java:129-143 | RecordNotFound for a missing number and a wrapped one for a deleted number; wrapped DuplicateKey; otherwise the record is replaced and its slot written, up to a device fault |
| `Db.Data.Delete` | src/suncertify/db/Data.java:148-161 | RecordNotFound for a missing or deleted number; otherwise the record becomes INVALID in both maps, can no longer be read, and its slot is written, up to a device fault |
| `Db.LoadedIdsContiguous` | src/suncertify/core/DBHelper.java:153-181 | a loaded file's ids are exactly 1..n |
| `Dao.TokensMembership` | src/suncertify/db/dao/impl/ContractorLocalDao.java:178-199 | a token is in the set exactly when some comma-separated piece trims to it and is not blank |
| `Dao.ContainsIffTokensIncluded` | src/suncertify/db/dao/impl/ContractorLocalDao.java:178-199 | CONTAINS holds exactly when every token of the pattern is a token of the field |
| `Dao.BlankPatternIsContained` | src/suncertify/db/dao/impl/ContractorLocalDao.java:178-199 | a blank pattern is contained in any field |
| `Dao.ComparisonsMirror` | src/suncertify/db/dao/impl/ContractorLocalDao.java:152-177 | for text and integer fields, LESS and GREATER, their OR_EQUAL forms, EQUAL and NOT_EQUAL mirror under swapped operands |
| `Dao.TextEqualIgnoresCaseOnly` | src/suncertify/db/dao/impl/ContractorLocalDao.java:152-177 | EQUAL on text holds exactly when the upper-cased texts agree |
| `Dao.PassesFilterIff` | src/suncertify/db/dao/impl/ContractorLocalDao.java:218-230 | a record passes exactly when every non-null, non-prefix criterion holds for its field |
| `Dao.StartsWithOnlyPassesAll` | src/suncertify/db/dao/impl/ContractorLocalDao.java:218-230 | with only STARTS_WITH operators every record passes the in-memory filter |
| `Dao.LoadReturnsFilteredRecords` | src/suncertify/db/dao/impl/ContractorLocalDao.java:96-135 | every loaded record is VALID, matches the forwarded prefixes and passes the filter, and every such record is loaded |
| `Dao.LoadByPrefixIsFind` | src/suncertify/db/dao/impl/ContractorLocalDao.java:86-91 | loading with prefix operators returns the found records, in find's order, or DaoFinderException when none |
| `Dao.CreateOutcomes` | src/suncertify/db/dao/impl/ContractorLocalDao.java:264-275 | a taken name and location is a duplicate and changes nothing; otherwise the record is added, or a failure reported on an I/O fault |
| `Dao.UpdateOutcomes` | src/suncertify/db/dao/impl/ContractorLocalDao.java:280-295 | a missing or deleted record is stale; a duplicate changes nothing; otherwise the record is replaced |
| `Dao.StoreOutcomes` | src/suncertify/db/dao/impl/ContractorLocalDao.java:264-275 | `store` of a well-formed record: a taken name and location is a duplicate and leaves the map; otherwise the record is added under the chosen number, which is returned, or a failure is reported on an I/O fault |
| `Dao.ChangeOutcomes` | src/suncertify/db/dao/impl/ContractorLocalDao.java:280-295 | `update` with texts that make a contractor: an unreadable record is stale, a duplicate leaves the map, otherwise the record is replaced and an I/O fault is a failure |
| `Dao.FoundById` | src/suncertify/db/dao/impl/ContractorLocalDao.java:68-74 | `findById` as written: an answer exactly when the record is readable, DaoFinderException otherwise |
| `Dao.FoundByIdKeepingId` | src/suncertify/db/dao/IDao.java:22-33 | `findById` as its interface promises: an answer exactly when the record is readable, DaoFinderException otherwise |
| `Dao.FoundByIdIsUnsaved` | src/suncertify/db/dao/impl/ContractorLocalDao.java:68-74 | what `findById` returns as written is unsaved, its number is not the one asked for, and updating it with its own texts reports RecordNotFound |
| `Dao.FoundByIdKeepingIdIsStored` | src/suncertify/db/dao/IDao.java:22-33 | the corrected `findById` returns a saved record under the number asked for, which reads back from the store with the same texts |
| `Dao.ContractorLocalDao.Open` | src/suncertify/db/dao/impl/ContractorLocalDao.java:56-63 | initialization errors are wrapped; a file with a bad flag is refused; otherwise a DAO over the loaded store |
| `Dao.ContractorLocalDao.FindById` | src/suncertify/db/dao/impl/ContractorLocalDao.java:68-74 | DaoFinderException unless the record is readable; otherwise its values as a new, unsaved contractor |
| `Dao.ContractorLocalDao.FindByIdKeepingId` | src/suncertify/db/dao/IDao.java:22-33 | DaoFinderException unless the record is readable; otherwise the record under the number it was found by, with the stored texts |
| `Dao.ContractorLocalDao.LoadAll` | src/suncertify/db/dao/impl/ContractorLocalDao.java:79-81 | every VALID record, increasing id |
| `Dao.ContractorLocalDao.LoadByPrefix` | src/suncertify/db/dao/impl/ContractorLocalDao.java:86-91 | load with STARTS_WITH for every field |
| `Dao.ContractorLocalDao.Load` | src/suncertify/db/dao/impl/ContractorLocalDao.java:96-135 | the load specification: illegal argument, finder exception, or the found records that pass the filter |
| `Dao.ContractorLocalDao.ForwardCriteria` | src/suncertify/db/dao/impl/ContractorLocalDao.java:99-106 | only the STARTS_WITH criteria are forwarded to find; the others become null |
| `Dao.ContractorLocalDao.Matches` | src/suncertify/db/dao/impl/ContractorLocalDao.java:152-201 | STARTS_WITH is false, CONTAINS is token inclusion, every other operator tests the comparator's sign |
| `Dao.ContractorLocalDao.RecordPassesFilter` | src/suncertify/db/dao/impl/ContractorLocalDao.java:218-230 | the record passes every checked field with its field type's comparator |
| `Dao.ContractorLocalDao.Refresh` | src/suncertify/db/dao/impl/ContractorLocalDao.java:235-243 | DaoStaleObjectException unless the record is readable; otherwise the stored record with its id |
| `Dao.ContractorLocalDao.Remove` | src/suncertify/db/dao/impl/ContractorLocalDao.java:248-259 | stale for a missing or deleted record, with maps and file unchanged; otherwise it becomes deleted in both maps and its slot is written up to any device fault, which is a failure; no record is left locked |
| `Dao.ContractorLocalDao.Store` | src/suncertify/db/dao/impl/ContractorLocalDao.java:264-275 | the store's create under the DAO's exception translation; the invalid map loses the reused number and the slot is written only when the record is added, and no record is left locked |
| `Dao.ContractorLocalDao.Update` | src/suncertify/db/dao/impl/ContractorLocalDao.java:280-295 | the store's update under the DAO's exception translation; the invalid map is unchanged, the slot is written only when the record is replaced, and no record is left locked |

## Left out

- The Swing user interface, RMI and networking, the configuration and
  start-up code, and the `close`/`finalize` of the database file are not
  modelled. `FileChannel.tryLock` and the "rws" mode are not modelled either.
- Concurrency is not modelled. `synchronized` blocks, `wait`/`notifyAll`
  and `InterruptedException` are left out.
- `Db.Data.Lock` requires the record to be unlocked instead of blocking
  until another thread unlocks it.
- Aliasing is not modelled: the store's maps hold record values, not shared
  `Contractor` objects. In the source, `delete`'s `setFlag` also changes the
  object other holders see.
- Text is treated as ISO-8859-1, one byte per character. Characters outside
  Latin-1, which the platform charset would write as `?`, are excluded by
  the `Latin1Record` precondition of the round-trip lemmas.
- Only ASCII letters are case-folded. Java's Unicode case mapping is not
  modelled.
- `StringHelper.ParseInt` accepts only the ASCII digits 0-9.
  `Integer.parseInt` also accepts the other Unicode decimal digits, such
  as Arabic-Indic ones; texts made of those are not modelled.
- `Money` is floating-point in the source and is not modelled:
  - a rate is kept as its text and written back padded;
  - `Money.valueOf`'s reformatting is left out;
  - the money comparator's amount order is the function parameter
    `amountOrder`.
- `StringHelper.doubleValue` is left out, because it is floating point.
  `hashCode` is left out too.
- I/O faults are parameters and are not derived from a device. A fault
  while storing is a `Storage.Fault` value: none, or the number of the
  seven writes of `storeNext` that succeed before one fails. A fault on
  the initial load is the boolean `loadFault`; it gives an empty store,
  as in the source. A fault of the seek itself is not modelled apart from
  a fault of the first write; both leave the file as it was.
- `Storage.StoreKeepsOtherSlots` covers later slots and earlier slots the
  file holds in full. An earlier slot that lies partly or wholly beyond
  the end of the file can change, because writing past the end fills the
  gap with zero bytes (`Storage.StoreFillsEarlierGap`).
- Hash map iteration order is left out:
  - `readAll` and `find` list ids in increasing order, which is Java's
    `HashMap` order for small `Integer` keys;
  - `Db.Data.GetNextRecordNo` may return any deleted number. The source
    takes the first one its hash set iterates.
- `StringHelper.SplitComma` keeps trailing empty pieces, where
  `String.split` drops them. The DAO discards blank tokens, so no result
  differs.
- `Db.Data.Create` and `Dao.ContractorLocalDao.Store` return the chosen
  record number as a ghost value. The source does not expose it before the
  call returns.

## Findings

| source | as written | input that shows it | evidently intended | confidence | as-written member | corrected member |
|---|---|---|---|---|---|---|
| src/suncertify/core/DBHelper.java:232-237 | `(recordNo - FIRST_RECORD_NO) * (RECORD_LENGTH + FLAG_LENGTH)` is computed in 32-bit `int` before it is added to the `long` offset | record 11734885 with the 70-byte header: the product 2147483772 wraps, and the seek goes to -2147483454 | the 64-bit offset 2147483842 | not executed | `Storage.SlotOffsetOverflows` | `Storage.SlotOffsetsTile` |
| src/suncertify/db/dao/impl/ContractorLocalDao.java:68-74 | `findById` returns `new Contractor(db.read(id))` and never sets the id, so the result has the unsaved number 0, while `IDao.findById` promises the persistent object with the given id | any readable record, say record 1: the result has id 0, and `update` of it reports RecordNotFound | the record with id 1, as `refresh` and `load` return it | not executed | `Dao.FoundByIdIsUnsaved` | `Dao.FoundByIdKeepingIdIsStored` |
