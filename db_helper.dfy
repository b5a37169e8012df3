/** `DBHelper`, the low-level codec of the database file.

    The file starts with a header: the magic cookie (int), the record
    length (int), the field count (short) and, per field, the length of its
    name (short), the name, and the field width (short). Then come the
    record slots, one after the other: a flag byte and the six fixed-width
    fields, 183 bytes in all. */
module Storage {
  import opened Wrappers
  import opened StringHelper
  import opened DBMetaInfo
  import opened Domain
  import opened Bytes

  /** The reasons `new DBHelper(name)` fails with InitializationException. */
  datatype InitError =
    | FileMissing          // "Database file does not exist"
    | NotValidDatabase     // wrong magic cookie
    | InvalidMetaInfo      // wrong record length or field count
    | InvalidDataMetaInfo  // wrong field names or widths
    | NegativeArraySize    // a negative name length in the field table
    | ReadFailed(cause: IoError)

  /** What `loadRecord` and `loadAllRecords` fail with. */
  datatype LoadError =
    | IllegalRecordNumber         // IllegalArgumentException: recordNo < 1
    | LoadIo(cause: IoError)      // IOException
    | BadFlag                     // ArrayIndexOutOfBoundsException from RecordFlagEnum.values()[flag]

  /** One slot: the flag byte and the record's fields. */
  const SLOT_LENGTH: nat := RECORD_LENGTH + FLAG_LENGTH

  // ---------------------------------------------------------------------
  // The header
  // ---------------------------------------------------------------------

  /** The field table from position `p` on, as the constructor's loop reads
      it, having already read `names` and `lengths`: a name length, the
      name's bytes (a short read at the end of the file leaves zeros), the
      field width. The result is both tables and the position after them. */
  function ParseEntries(c: seq<byte>, p: nat, names: seq<string>, lengths: seq<int>)
    : Result<(seq<string>, seq<int>, nat), InitError>
    requires |names| == |lengths| <= FIELDS_COUNT
    decreases FIELDS_COUNT - |names|
  {
    if |names| == FIELDS_COUNT then Ok((names, lengths, p))
    else
      match ReadShortAt(c, p)
      case None => Err(ReadFailed(EndOfFile))
      case Some(len) =>
        if len < 0 then Err(NegativeArraySize)
        else
          var q := Advance(c, p + 2, len);
          match ReadShortAt(c, q)
          case None => Err(ReadFailed(EndOfFile))
          case Some(width) =>
            ParseEntries(c, q + 2, names + [DecodeString(ReadAt(c, p + 2, len))], lengths + [width])
  }

  /** One entry of the table loop, read forwards. */
  lemma ParseEntriesUnfold(c: seq<byte>, p: nat, names: seq<string>, lengths: seq<int>, len: int, width: int)
    requires |names| == |lengths| < FIELDS_COUNT
    requires ReadShortAt(c, p) == Some(len) && len >= 0
    requires ReadShortAt(c, Advance(c, p + 2, len)) == Some(width)
    ensures ParseEntries(c, p, names, lengths)
            == ParseEntries(c, Advance(c, p + 2, len) + 2, names + [DecodeString(ReadAt(c, p + 2, len))],
                            lengths + [width])
  {
  }

  /** The header check of `new DBHelper(name)`, step by step; the result is
      `firstRecordOffset`. */
  function ParseHeader(c: seq<byte>): Result<nat, InitError> {
    match ReadIntAt(c, 0)
    case None => Err(ReadFailed(EndOfFile))
    case Some(magic) =>
      if magic != MAGIC_COOKIE then Err(NotValidDatabase)
      else
        match ReadIntAt(c, 4)
        case None => Err(ReadFailed(EndOfFile))
        case Some(recordLength) =>
          if recordLength != RECORD_LENGTH then Err(InvalidMetaInfo)
          else
            match ReadShortAt(c, 8)
            case None => Err(ReadFailed(EndOfFile))
            case Some(fieldsCount) =>
              if fieldsCount != FIELDS_COUNT then Err(InvalidMetaInfo)
              else
                match ParseEntries(c, 10, [], [])
                case Err(e) => Err(e)
                case Ok((names, lengths, q)) =>
                  if names != FIELD_NAMES || lengths != FIELD_LENGTHS then Err(InvalidDataMetaInfo)
                  else Ok(q)
  }

  /** The bytes of the `i`-th entry of the expected field table. */
  function EntryBytes(i: nat): (bs: seq<byte>)
    requires i < FIELDS_COUNT
    ensures |bs| == 4 + |FIELD_NAMES[i]|
  {
    ShortBytes(|FIELD_NAMES[i]|) + EncodeString(FIELD_NAMES[i]) + ShortBytes(FIELD_LENGTHS[i])
  }

  /** The expected field table from entry `k` on. */
  function EntriesBytes(k: nat): seq<byte>
    requires k <= FIELDS_COUNT
    decreases FIELDS_COUNT - k
  {
    if k == FIELDS_COUNT then [] else EntryBytes(k) + EntriesBytes(k + 1)
  }

  /** The only header the constructor accepts. */
  function Header(): seq<byte> {
    IntBytes(MAGIC_COOKIE) + IntBytes(RECORD_LENGTH) + ShortBytes(FIELDS_COUNT) + EntriesBytes(0)
  }

  const HEADER_LENGTH: nat := 70

  /** The header is 4 + 4 + 2 bytes plus 2 + |name| + 2 per field: 70. */
  lemma HeaderLength()
    ensures |Header()| == HEADER_LENGTH
    ensures HEADER_LENGTH == 4 + 4 + 2 + (2 + |FIELD_NAME| + 2) + (2 + |FIELD_LOCATION| + 2)
              + (2 + |FIELD_SPECIALTIES| + 2) + (2 + |FIELD_SIZE| + 2) + (2 + |FIELD_RATE| + 2)
              + (2 + |FIELD_OWNER| + 2)
  {
    assert |EntriesBytes(5)| == 9;
    assert |EntriesBytes(4)| == 17;
    assert |EntriesBytes(3)| == 25;
    assert |EntriesBytes(2)| == 40;
    assert |EntriesBytes(1)| == 52;
    assert |EntriesBytes(0)| == 60;
  }

  lemma FieldNamesLatin1(i: nat)
    requires i < FIELDS_COUNT
    ensures Latin1(FIELD_NAMES[i])
  {
  }

  lemma ReadAtInside(c: seq<byte>, p: nat, k: nat)
    requires p + k <= |c|
    ensures ReadAt(c, p, k) == c[p..p + k]
  {
  }

  /** A slice equals `a + b` exactly when its two parts equal `a` and `b`. */
  lemma SliceOfTwo(c: seq<byte>, p: nat, a: seq<byte>, b: seq<byte>)
    requires p + |a| + |b| <= |c|
    ensures c[p..p + |a| + |b|] == a + b <==> c[p..p + |a|] == a && c[p + |a|..p + |a| + |b|] == b
  {
    var i, n := p + |a|, p + |a| + |b|;
    assert c[p..n] == c[p..i] + c[i..n];
    if c[p..n] == a + b {
      assert (a + b)[..|a|] == a && (a + b)[|a|..] == b;
      assert c[p..n][..|a|] == c[p..i] && c[p..n][|a|..] == c[i..n];
    }
  }

  /** Three byte strings lie one after the other at `p` exactly when their
      concatenation does. */
  lemma SliceOfThree(c: seq<byte>, p: nat, a: seq<byte>, b: seq<byte>, d: seq<byte>)
    requires p + |a| + |b| + |d| <= |c|
    ensures var i, j, n := p + |a|, p + |a| + |b|, p + |a| + |b| + |d|;
            c[p..n] == a + b + d <==> c[p..i] == a && c[i..j] == b && c[j..n] == d
  {
    var i, j, n := p + |a|, p + |a| + |b|, p + |a| + |b| + |d|;
    assert c[p..n] == c[p..i] + c[i..j] + c[j..n];
    if c[p..n] == a + b + d {
      assert (a + b + d)[..|a|] == a;
      assert (a + b + d)[|a|..|a| + |b|] == b;
      assert (a + b + d)[|a| + |b|..] == d;
      assert c[p..n][..|a|] == c[p..i];
      assert c[p..n][|a|..|a| + |b|] == c[i..j];
      assert c[p..n][|a| + |b|..] == c[j..n];
    }
  }

  /** Reading the bytes of entry `k` of the expected table at `p` gives back
      the name length, the name and the width. */
  lemma EntryReadBack(c: seq<byte>, p: nat, k: nat)
    requires k < FIELDS_COUNT
    requires p + |EntryBytes(k)| <= |c| && c[p..p + |EntryBytes(k)|] == EntryBytes(k)
    ensures var L := |FIELD_NAMES[k]|;
            && ReadShortAt(c, p) == Some(L)
            && Advance(c, p + 2, L) == p + 2 + L
            && DecodeString(ReadAt(c, p + 2, L)) == FIELD_NAMES[k]
            && ReadShortAt(c, p + 2 + L) == Some(FIELD_LENGTHS[k] as int)
  {
    var name := FIELD_NAMES[k];
    var L := |name|;
    var q := p + 2 + L;
    var a, b, d := ShortBytes(L), EncodeString(name), ShortBytes(FIELD_LENGTHS[k]);
    SliceOfThree(c, p, a, b, d);
    assert c[p..p + 2] == a && c[p + 2..q] == b && c[q..q + 2] == d;
    assert c[p] == a[0] && c[p + 1] == a[1] by {
      assert c[p..p + 2][0] == c[p] && c[p..p + 2][1] == c[p + 1];
    }
    assert c[q] == d[0] && c[q + 1] == d[1] by {
      assert c[q..q + 2][0] == c[q] && c[q..q + 2][1] == c[q + 1];
    }
    ReadAtInside(c, p + 2, L);
    FieldNamesLatin1(k);
    DecodeEncode(name);
  }

  /** Conversely, an entry that reads back as entry `k` of the expected
      table has that entry's bytes. */
  lemma EntryOfReadBack(c: seq<byte>, p: nat, k: nat)
    requires k < FIELDS_COUNT
    requires var L := |FIELD_NAMES[k]|;
             && ReadShortAt(c, p) == Some(L)
             && Advance(c, p + 2, L) == p + 2 + L
             && DecodeString(ReadAt(c, p + 2, L)) == FIELD_NAMES[k]
             && ReadShortAt(c, p + 2 + L) == Some(FIELD_LENGTHS[k] as int)
    ensures p + |EntryBytes(k)| <= |c| && c[p..p + |EntryBytes(k)|] == EntryBytes(k)
  {
    var name := FIELD_NAMES[k];
    var L := |name|;
    var q := p + 2 + L;
    var a, b, d := ShortBytes(L), EncodeString(name), ShortBytes(FIELD_LENGTHS[k]);
    ReadAtInside(c, p + 2, L);
    var text := c[p + 2..q];
    assert DecodeString(text) == name;
    EncodeDecode(text);
    assert text == b;
    ShortBytesOf(c[p], c[p + 1]);
    assert c[p..p + 2] == [c[p], c[p + 1]] == a;
    ShortBytesOf(c[q], c[q + 1]);
    assert c[q..q + 2] == [c[q], c[q + 1]] == d;
    SliceOfThree(c, p, a, b, d);
  }

  /** The field table parses to the expected names and widths exactly
      when its bytes are the expected ones, and then it ends where they
      do. */
  lemma ParseEntriesSpec(c: seq<byte>, p: nat, names: seq<string>, lengths: seq<int>)
    requires |names| == |lengths| <= FIELDS_COUNT && p <= |c|
    ensures var k := |names|;
            var r := ParseEntries(c, p, names, lengths);
            (r.Ok? && r.value.0 == FIELD_NAMES && r.value.1 == FIELD_LENGTHS)
            <==> (names == FIELD_NAMES[..k] && lengths == FIELD_LENGTHS[..k]
                  && p + |EntriesBytes(k)| <= |c| && c[p..p + |EntriesBytes(k)|] == EntriesBytes(k))
    ensures var r := ParseEntries(c, p, names, lengths);
            r.Ok? && r.value.0 == FIELD_NAMES && r.value.1 == FIELD_LENGTHS
            ==> r.value.2 == p + |EntriesBytes(|names|)|
  {
    var k := |names|;
    if names == FIELD_NAMES[..k] && lengths == FIELD_LENGTHS[..k]
       && p + |EntriesBytes(k)| <= |c| && c[p..p + |EntriesBytes(k)|] == EntriesBytes(k) {
      ParseEntriesOfBytes(c, p, k);
    }
    var r := ParseEntries(c, p, names, lengths);
    if r.Ok? && r.value.0 == FIELD_NAMES && r.value.1 == FIELD_LENGTHS {
      BytesOfParseEntries(c, p, names, lengths);
    }
  }

  /** The expected bytes parse to the expected tables. */
  lemma {:induction false} ParseEntriesOfBytes(c: seq<byte>, p: nat, k: nat)
    requires k <= FIELDS_COUNT
    requires p + |EntriesBytes(k)| <= |c| && c[p..p + |EntriesBytes(k)|] == EntriesBytes(k)
    decreases FIELDS_COUNT - k
    ensures ParseEntries(c, p, FIELD_NAMES[..k], FIELD_LENGTHS[..k])
            == Ok((FIELD_NAMES, FIELD_LENGTHS, p + |EntriesBytes(k)|))
  {
    if k == FIELDS_COUNT {
      assert FIELD_NAMES[..k] == FIELD_NAMES && FIELD_LENGTHS[..k] == FIELD_LENGTHS;
    } else {
      var q := ParseEntriesAdvance(c, p, k);
      ParseEntriesOfBytes(c, q, k + 1);
    }
  }

  /** The table loop over the expected bytes of entry `k` moves on to the
      expected bytes from entry `k + 1` on. */
  lemma ParseEntriesAdvance(c: seq<byte>, p: nat, k: nat) returns (q: nat)
    requires k < FIELDS_COUNT
    requires p + |EntriesBytes(k)| <= |c| && c[p..p + |EntriesBytes(k)|] == EntriesBytes(k)
    ensures q + |EntriesBytes(k + 1)| == p + |EntriesBytes(k)|
    ensures q + |EntriesBytes(k + 1)| <= |c| && c[q..q + |EntriesBytes(k + 1)|] == EntriesBytes(k + 1)
    ensures ParseEntries(c, p, FIELD_NAMES[..k], FIELD_LENGTHS[..k])
            == ParseEntries(c, q, FIELD_NAMES[..k + 1], FIELD_LENGTHS[..k + 1])
  {
    q := EntriesReadBack(c, p, k);
    ParseEntriesStep(c, p, k);
  }

  /** The first entry of the expected bytes from entry `k` on reads back as
      entry `k`; the rest starts at `q`. */
  lemma EntriesReadBack(c: seq<byte>, p: nat, k: nat) returns (q: nat)
    requires k < FIELDS_COUNT
    requires p + |EntriesBytes(k)| <= |c| && c[p..p + |EntriesBytes(k)|] == EntriesBytes(k)
    ensures var L := |FIELD_NAMES[k]|;
            && q == p + 4 + L
            && ReadShortAt(c, p) == Some(L)
            && Advance(c, p + 2, L) == p + 2 + L
            && DecodeString(ReadAt(c, p + 2, L)) == FIELD_NAMES[k]
            && ReadShortAt(c, p + 2 + L) == Some(FIELD_LENGTHS[k] as int)
    ensures q + |EntriesBytes(k + 1)| == p + |EntriesBytes(k)|
    ensures q + |EntriesBytes(k + 1)| <= |c| && c[q..q + |EntriesBytes(k + 1)|] == EntriesBytes(k + 1)
  {
    var a, b := EntryBytes(k), EntriesBytes(k + 1);
    assert EntriesBytes(k) == a + b;
    SliceOfTwo(c, p, a, b);
    EntryReadBack(c, p, k);
    q := p + |a|;
  }

  /** One step of the table loop over an entry that reads back as entry
      `k`. */
  lemma ParseEntriesStep(c: seq<byte>, p: nat, k: nat)
    requires k < FIELDS_COUNT
    requires var L := |FIELD_NAMES[k]|;
             && ReadShortAt(c, p) == Some(L)
             && Advance(c, p + 2, L) == p + 2 + L
             && DecodeString(ReadAt(c, p + 2, L)) == FIELD_NAMES[k]
             && ReadShortAt(c, p + 2 + L) == Some(FIELD_LENGTHS[k] as int)
    ensures ParseEntries(c, p, FIELD_NAMES[..k], FIELD_LENGTHS[..k])
            == ParseEntries(c, p + 4 + |FIELD_NAMES[k]|, FIELD_NAMES[..k + 1], FIELD_LENGTHS[..k + 1])
  {
    assert FIELD_NAMES[..k] + [FIELD_NAMES[k]] == FIELD_NAMES[..k + 1];
    assert FIELD_LENGTHS[..k] + [FIELD_LENGTHS[k] as int] == FIELD_LENGTHS[..k + 1];
  }

  /** Tables that parse to the expected ones were the expected bytes. */
  lemma {:induction false} BytesOfParseEntries(c: seq<byte>, p: nat, names: seq<string>, lengths: seq<int>)
    requires |names| == |lengths| <= FIELDS_COUNT && p <= |c|
    requires var r := ParseEntries(c, p, names, lengths);
             r.Ok? && r.value.0 == FIELD_NAMES && r.value.1 == FIELD_LENGTHS
    decreases FIELDS_COUNT - |names|
    ensures var k := |names|;
            && names == FIELD_NAMES[..k] && lengths == FIELD_LENGTHS[..k]
            && p + |EntriesBytes(k)| <= |c| && c[p..p + |EntriesBytes(k)|] == EntriesBytes(k)
            && ParseEntries(c, p, names, lengths).value.2 == p + |EntriesBytes(k)|
  {
    var k := |names|;
    if k == FIELDS_COUNT {
      assert FIELD_NAMES[..k] == FIELD_NAMES && FIELD_LENGTHS[..k] == FIELD_LENGTHS;
      assert EntriesBytes(k) == [] && c[p..p] == [];
      return;
    }
    var len, q, x, width := ParseEntriesStepBack(c, p, names, lengths);
    BytesOfParseEntries(c, q, names + [x], lengths + [width]);
    StepBackIsEntry(c, p, names, lengths, len, q, x, width);
  }

  /** An entry read backwards that completes the expected prefix of the
      tables, followed by the expected bytes of the later entries, is the
      expected bytes from its own entry on. */
  lemma StepBackIsEntry(c: seq<byte>, p: nat, names: seq<string>, lengths: seq<int>,
                        len: nat, q: nat, x: string, width: int)
    requires |names| == |lengths| < FIELDS_COUNT
    requires var k := |names|;
             names + [x] == FIELD_NAMES[..k + 1] && lengths + [width] == FIELD_LENGTHS[..k + 1]
    requires ReadShortAt(c, p) == Some(len as int) && Advance(c, p + 2, len) + 2 == q
    requires x == DecodeString(ReadAt(c, p + 2, len)) && |x| == len
    requires ReadShortAt(c, q - 2) == Some(width)
    requires var k := |names|;
             q + |EntriesBytes(k + 1)| <= |c| && c[q..q + |EntriesBytes(k + 1)|] == EntriesBytes(k + 1)
    ensures var k := |names|;
            && names == FIELD_NAMES[..k] && lengths == FIELD_LENGTHS[..k]
            && p + |EntriesBytes(k)| <= |c| && c[p..p + |EntriesBytes(k)|] == EntriesBytes(k)
            && q + |EntriesBytes(k + 1)| == p + |EntriesBytes(k)|
  {
    var k := |names|;
    PrefixStepBack(names, x, FIELD_NAMES);
    PrefixStepBack(lengths, width, FIELD_LENGTHS);
    EntriesOfReadBack(c, p, k, q);
  }

  /** A sequence that grows into a prefix of `all` was a prefix of it
      already, and grew by the next element of `all`. */
  lemma PrefixStepBack<T>(xs: seq<T>, x: T, all: seq<T>)
    requires |xs| < |all| && xs + [x] == all[..|xs| + 1]
    ensures xs == all[..|xs|] && x == all[|xs|]
  {
    var k := |xs|;
    assert (xs + [x])[..k] == xs && (xs + [x])[k] == x;
    assert all[..k + 1][..k] == all[..k];
  }

  /** One step of the table loop, read backwards: what the entry at `p`
      held and where the next one starts. */
  lemma ParseEntriesStepBack(c: seq<byte>, p: nat, names: seq<string>, lengths: seq<int>)
    returns (len: nat, q: nat, x: string, width: int)
    requires |names| == |lengths| < FIELDS_COUNT
    requires ParseEntries(c, p, names, lengths).Ok?
    ensures ParseEntries(c, p, names, lengths) == ParseEntries(c, q, names + [x], lengths + [width])
    ensures ReadShortAt(c, p) == Some(len as int) && Advance(c, p + 2, len) + 2 == q
    ensures x == DecodeString(ReadAt(c, p + 2, len)) && |x| == len
    ensures ReadShortAt(c, q - 2) == Some(width) && q <= |c|
  {
    len := ReadShortAt(c, p).value;
    var a := Advance(c, p + 2, len);
    width := ReadShortAt(c, a).value;
    x := DecodeString(ReadAt(c, p + 2, len));
    q := a + 2;
  }

  /** An entry that reads back as entry `k`, followed at `q` by the expected
      bytes from entry `k + 1` on, is the expected bytes from entry `k` on. */
  lemma EntriesOfReadBack(c: seq<byte>, p: nat, k: nat, q: nat)
    requires k < FIELDS_COUNT
    requires var L := |FIELD_NAMES[k]|;
             && ReadShortAt(c, p) == Some(L)
             && Advance(c, p + 2, L) + 2 == q
             && DecodeString(ReadAt(c, p + 2, L)) == FIELD_NAMES[k]
             && ReadShortAt(c, q - 2) == Some(FIELD_LENGTHS[k] as int)
    requires q + |EntriesBytes(k + 1)| <= |c| && c[q..q + |EntriesBytes(k + 1)|] == EntriesBytes(k + 1)
    ensures p + |EntriesBytes(k)| <= |c| && c[p..p + |EntriesBytes(k)|] == EntriesBytes(k)
  {
    var L := |FIELD_NAMES[k]|;
    assert Advance(c, p + 2, L) == p + 2 + L;
    EntryOfReadBack(c, p, k);
    JoinAt(c, p, EntryBytes(k), q, EntriesBytes(k + 1), EntriesBytes(k));
  }

  /** Two slices that meet join into the slice of their concatenation. */
  lemma JoinAt(c: seq<byte>, p: nat, a: seq<byte>, q: nat, b: seq<byte>, e: seq<byte>)
    requires e == a + b && q == p + |a|
    requires p + |a| <= |c| && c[p..p + |a|] == a
    requires q + |b| <= |c| && c[q..q + |b|] == b
    ensures p + |e| <= |c| && c[p..p + |e|] == e
  {
    SliceOfTwo(c, p, a, b);
  }

  /** `new DBHelper(name)` accepts a file exactly when it starts with the
      expected 70-byte header, and then the first record starts right
      after it. */
  lemma ParseHeaderSpec(c: seq<byte>)
    ensures ParseHeader(c).Ok? <==> |c| >= HEADER_LENGTH && c[..HEADER_LENGTH] == Header()
    ensures ParseHeader(c).Ok? ==> ParseHeader(c).value == HEADER_LENGTH
  {
    HeaderLength();
    HeaderSplit(c);
    if |c| >= 10 {
      PrefixReadBack(c);
      ParseEntriesSpec(c, 10, [], []);
      ParseHeaderSteps(c);
    }
  }

  /** The fixed part of the header: magic cookie, record length and field
      count. */
  function HeaderPrefix(): (bs: seq<byte>)
    ensures |bs| == 10
  {
    IntBytes(MAGIC_COOKIE) + IntBytes(RECORD_LENGTH) + ShortBytes(FIELDS_COUNT)
  }

  /** The header is its fixed part followed by the field table. */
  lemma HeaderSplit(c: seq<byte>)
    ensures Header() == HeaderPrefix() + EntriesBytes(0)
    ensures |EntriesBytes(0)| == 60
    ensures (|c| >= HEADER_LENGTH && c[..HEADER_LENGTH] == Header())
            <==> (|c| >= 10 && c[..10] == HeaderPrefix() && 10 + |EntriesBytes(0)| <= |c|
                  && c[10..10 + |EntriesBytes(0)|] == EntriesBytes(0))
  {
    HeaderLength();
    var pre, e := HeaderPrefix(), EntriesBytes(0);
    if |c| >= HEADER_LENGTH {
      var w := c[..HEADER_LENGTH];
      assert w == c[..10] + c[10..10 + |e|];
      assert w[..10] == c[..10] && w[10..] == c[10..10 + |e|];
      if w == pre + e {
        assert (pre + e)[..10] == pre && (pre + e)[10..] == e;
      }
    }
  }

  /** A non-negative int is written at `p` exactly when `readInt` there
      gives it back. */
  lemma IntSlice(c: seq<byte>, p: nat, v: nat)
    requires v < 0x8000_0000 && p + 4 <= |c|
    ensures c[p..p + 4] == IntBytes(v) <==> ReadIntAt(c, p) == Some(v)
  {
    var w := c[p..p + 4];
    assert w[0] == c[p] && w[1] == c[p + 1] && w[2] == c[p + 2] && w[3] == c[p + 3];
    if ReadIntAt(c, p) == Some(v) {
      IntBytesOf(c[p], c[p + 1], c[p + 2], c[p + 3]);
      assert w == [c[p], c[p + 1], c[p + 2], c[p + 3]];
    }
  }

  /** The same for a non-negative short and `readShort`. */
  lemma ShortSlice(c: seq<byte>, p: nat, v: nat)
    requires v < 32768 && p + 2 <= |c|
    ensures c[p..p + 2] == ShortBytes(v) <==> ReadShortAt(c, p) == Some(v)
  {
    var w := c[p..p + 2];
    assert w[0] == c[p] && w[1] == c[p + 1];
    if ReadShortAt(c, p) == Some(v) {
      ShortBytesOf(c[p], c[p + 1]);
      assert w == [c[p], c[p + 1]];
    }
  }

  /** The three numbers at the start read back as the expected ones exactly
      when the fixed part of the header is there. */
  lemma PrefixReadBack(c: seq<byte>)
    requires |c| >= 10
    ensures c[..10] == HeaderPrefix()
            <==> ReadIntAt(c, 0) == Some(MAGIC_COOKIE) && ReadIntAt(c, 4) == Some(RECORD_LENGTH)
                 && ReadShortAt(c, 8) == Some(FIELDS_COUNT)
  {
    var a, b, d := IntBytes(MAGIC_COOKIE), IntBytes(RECORD_LENGTH), ShortBytes(FIELDS_COUNT);
    assert HeaderPrefix() == a + b + d;
    assert c[..10] == c[0..10];
    SliceOfThree(c, 0, a, b, d);
    IntSlice(c, 0, MAGIC_COOKIE);
    IntSlice(c, 4, RECORD_LENGTH);
    ShortSlice(c, 8, FIELDS_COUNT);
  }

  /** `ParseHeader` is the three number checks followed by the table
      check. */
  lemma ParseHeaderSteps(c: seq<byte>)
    requires |c| >= 10
    ensures var r := ParseEntries(c, 10, [], []);
            ParseHeader(c).Ok?
            <==> (&& ReadIntAt(c, 0) == Some(MAGIC_COOKIE) && ReadIntAt(c, 4) == Some(RECORD_LENGTH)
                  && ReadShortAt(c, 8) == Some(FIELDS_COUNT)
                  && r.Ok? && r.value.0 == FIELD_NAMES && r.value.1 == FIELD_LENGTHS)
    ensures ParseHeader(c).Ok? ==> ParseHeader(c).value == ParseEntries(c, 10, [], []).value.2
  {
  }

  // ---------------------------------------------------------------------
  // Slots
  // ---------------------------------------------------------------------

  /** `seekToRecord(recordNo)` as intended: slot `recordNo` starts
      `(recordNo - 1) * 183` bytes after the header, in the 64-bit file
      offset arithmetic. */
  function SlotOffset(firstRecordOffset: nat, recordNo: int): int {
    firstRecordOffset + (recordNo - 1) * 183
  }

  /** Java's `int` arithmetic: the value modulo 2^32, as a signed int. */
  function Wrap32(x: int): (r: Int32)
    ensures (r - x) % 0x1_0000_0000 == 0
  {
    var m := x % 0x1_0000_0000;
    if m <= MAX_INT then m else m - 0x1_0000_0000
  }

  /** `seekToRecord(recordNo)` as written: the product is an `int`, so it
      wraps around before it is widened and added to the offset. */
  function SlotOffsetAsWritten(firstRecordOffset: nat, recordNo: Int32): int {
    firstRecordOffset + Wrap32(Wrap32(recordNo - 1) * 183)
  }

  /** The two agree as long as the product fits in an int. */
  lemma SlotOffsetAsWrittenAgrees(firstRecordOffset: nat, recordNo: Int32)
    requires FIRST_RECORD_NO <= recordNo && (recordNo - FIRST_RECORD_NO) * SLOT_LENGTH <= MAX_INT
    ensures SlotOffsetAsWritten(firstRecordOffset, recordNo) == SlotOffset(firstRecordOffset, recordNo)
  {
  }

  /** Record 11,734,885 of a file with the 70-byte header: the product
      2,147,483,772 wraps to -2,147,483,524, and the seek to the negative
      offset fails, where the intended offset is positive. */
  lemma SlotOffsetOverflows()
    ensures SlotOffsetAsWritten(HEADER_LENGTH, 11734885) == -2147483454
    ensures SlotOffset(HEADER_LENGTH, 11734885) == 2147483842
  {
  }

  /** Slots follow each other without gap or overlap, and slot 1 starts
      right after the header. */
  lemma SlotOffsetsTile(firstRecordOffset: nat, a: int, b: int)
    ensures SlotOffset(firstRecordOffset, FIRST_RECORD_NO) == firstRecordOffset
    ensures SlotOffset(firstRecordOffset, a + 1) == SlotOffset(firstRecordOffset, a) + SLOT_LENGTH
    ensures a < b ==> SlotOffset(firstRecordOffset, a) + SLOT_LENGTH <= SlotOffset(firstRecordOffset, b)
    ensures a >= FIRST_RECORD_NO ==> SlotOffset(firstRecordOffset, a) >= firstRecordOffset
  {
  }

  /** Where field `i` starts inside a record, after the flag byte. */
  function FieldOffset(i: nat): nat
    requires i <= FIELDS_COUNT
  {
    if i == 0 then 0 else FieldOffset(i - 1) + FIELD_LENGTHS[i - 1]
  }

  lemma FieldOffsetsEndAtRecordLength()
    ensures FieldOffset(FIELDS_COUNT) == RECORD_LENGTH
  {
    assert FieldOffset(3) == 160;
  }

  /** The six field texts of the record whose fields start at `q`, read
      one after the other with `read(byte[width])`. */
  function FieldTextsAt(c: seq<byte>, q: nat): (r: seq<string>)
    ensures |r| == FIELDS_COUNT
    ensures forall i :: 0 <= i < FIELDS_COUNT ==> |r[i]| == FIELD_LENGTHS[i]
  {
    seq(FIELDS_COUNT, i requires 0 <= i < FIELDS_COUNT =>
      DecodeString(ReadAt(c, q + FieldOffset(i), FIELD_LENGTHS[i])))
  }

  /** Field `i` of the texts read at `q`. */
  lemma FieldTextAt(c: seq<byte>, q: nat, i: nat)
    requires i < FIELDS_COUNT
    ensures FieldTextsAt(c, q)[i] == DecodeString(ReadAt(c, q + FieldOffset(i), FIELD_LENGTHS[i]))
  {
  }

  /** The bytes of the next `read(byte[width])` decode to the next field's
      text. */
  lemma ReadNextField(c: seq<byte>, q: nat, i: nat, bytes: seq<byte>)
    requires i < FIELDS_COUNT
    requires bytes == ReadAt(c, Advance(c, q, FieldOffset(i)), FIELD_LENGTHS[i])
    ensures bytes == ReadAt(c, q + FieldOffset(i), FIELD_LENGTHS[i])
  {
    ReadAfterAdvance(c, q, FieldOffset(i), FIELD_LENGTHS[i]);
  }

  /** The texts read so far, followed by the decoding of bytes equal to
      those of the next text, are one more of the texts. */
  lemma TakeOneMore(texts: seq<string>, i: nat, values: seq<string>, read: seq<byte>, bytes: seq<byte>)
    requires i < |texts|
    requires values == texts[..i] && texts[i] == DecodeString(read) && bytes == read
    ensures values + [DecodeString(bytes)] == texts[..i + 1]
  {
    assert texts[..i + 1] == texts[..i] + [texts[i]];
  }

  lemma TakeAll(texts: seq<string>)
    ensures texts[..|texts|] == texts
  {
  }

  /** Decoding the slot at `p` as record `id`: the flag byte (EOF when there
      is none), the fields, `new Contractor(values)`, `setId`, `setFlag`. */
  function DecodeSlot(c: seq<byte>, p: nat, id: int): (r: Result<ContractorValue, LoadError>)
    ensures r.Ok? <==> p < |c| && (c[p] == 0 || c[p] == 1)
    ensures p >= |c| ==> r == Err(LoadIo(EndOfFile))
    ensures p < |c| && r.Err? ==> r.error == BadFlag
    ensures r.Ok? ==> r.value.id == id && r.value.flag.Ordinal() == c[p] && WellFormed(r.value)
  {
    if p >= |c| then Err(LoadIo(EndOfFile))
    else
      var values := FieldTextsAt(c, p + 1);
      var record := FromStrings(values).value;
      match FlagOfOrdinal(SignedByte(c[p]))
      case None => Err(BadFlag)
      case Some(flag) => Ok(record.(id := id, flag := flag))
  }

  /** The slot at `p` decoded from its flag byte `b` and its field texts. */
  lemma DecodeSlotOf(c: seq<byte>, p: nat, id: int, b: int, values: seq<string>)
    requires p < |c| && b == SignedByte(c[p])
    requires values == FieldTextsAt(c, p + 1)
    ensures FromStrings(values).Ok?
    ensures DecodeSlot(c, p, id)
            == match FlagOfOrdinal(b)
               case None => Err(BadFlag)
               case Some(f) => Ok(FromStrings(values).value.(id := id, flag := f))
  {
  }

  /** `loadRecord(recordNo)` on file contents `c`. */
  function LoadRecordSpec(c: seq<byte>, firstRecordOffset: nat, recordNo: int): Result<ContractorValue, LoadError> {
    if recordNo < FIRST_RECORD_NO then Err(IllegalRecordNumber)
    else DecodeSlot(c, SlotOffset(firstRecordOffset, recordNo), recordNo)
  }

  /** The number of slots whose flag byte lies in the file. */
  function SlotCount(c: seq<byte>, firstRecordOffset: nat): (n: nat)
    ensures forall k :: FIRST_RECORD_NO <= k ==>
              (SlotOffset(firstRecordOffset, k) < |c| <==> k <= n)
  {
    if |c| <= firstRecordOffset then 0
    else (|c| - firstRecordOffset - 1) / 183 + 1
  }

  /** What `loadRecord` gives for each slot of the file, slot 1 first. */
  function SlotResults(c: seq<byte>, firstRecordOffset: nat): (rs: seq<Result<ContractorValue, LoadError>>)
    ensures |rs| == SlotCount(c, firstRecordOffset)
  {
    seq(SlotCount(c, firstRecordOffset), i requires 0 <= i < SlotCount(c, firstRecordOffset) =>
      LoadRecordSpec(c, firstRecordOffset, i + FIRST_RECORD_NO))
  }

  /** The loop of `loadAllRecords` over the slot results from index `i` on,
      having built `acc`: each record goes in under its record number, and
      the first slot that fails to decode ends the loop with its error. */
  function ScanSlots<V, E>(rs: seq<Result<V, E>>, i: nat, acc: map<int, V>): Result<map<int, V>, E>
    requires i <= |rs|
    decreases |rs| - i
  {
    if i == |rs| then Ok(acc)
    else
      match rs[i]
      case Err(e) => Err(e)
      case Ok(v) => ScanSlots(rs, i + 1, acc[i + FIRST_RECORD_NO := v])
  }

  /** One step of the scan: an error ends it, a record is added under its
      number. */
  lemma ScanSlotsStep<V, E>(rs: seq<Result<V, E>>, i: nat, acc: map<int, V>)
    requires i < |rs|
    ensures rs[i].Err? ==> ScanSlots(rs, i, acc) == Err(rs[i].error)
    ensures rs[i].Ok? ==> ScanSlots(rs, i, acc) == ScanSlots(rs, i + 1, acc[i + FIRST_RECORD_NO := rs[i].value])
  {
  }

  /** `loadAllRecords()` on file contents `c`. */
  function DecodeAll(c: seq<byte>, firstRecordOffset: nat): Result<map<int, ContractorValue>, LoadError> {
    ScanSlots(SlotResults(c, firstRecordOffset), 0, map[])
  }

  /** The flag byte of slot `k` holds a valid ordinal. */
  predicate FlagReadable(c: seq<byte>, firstRecordOffset: nat, k: int)
    requires k >= FIRST_RECORD_NO
  {
    var p := SlotOffset(firstRecordOffset, k);
    0 <= p < |c| && (c[p] == 0 || c[p] == 1)
  }

  /** The scan succeeds exactly when every remaining slot does; it then adds
      slot `j` under number `j + 1` and keeps `acc` elsewhere. When it
      fails, it fails with the error of the first failing slot. */
  lemma {:induction false} ScanSlotsSpec<V, E>(rs: seq<Result<V, E>>, i: nat, acc: map<int, V>)
    requires i <= |rs|
    decreases |rs| - i
    ensures ScanSlots(rs, i, acc).Ok? <==> forall j :: i <= j < |rs| ==> rs[j].Ok?
    ensures var r := ScanSlots(rs, i, acc);
            r.Ok? ==>
              && (forall n :: n in r.value <==> n in acc || i + FIRST_RECORD_NO <= n <= |rs|)
              && (forall n :: n in acc && !(i + FIRST_RECORD_NO <= n <= |rs|) ==> r.value[n] == acc[n])
              && (forall j :: i <= j < |rs| ==> r.value[j + FIRST_RECORD_NO] == rs[j].value)
    ensures var r := ScanSlots(rs, i, acc);
            r.Err? ==> exists j :: i <= j < |rs| && rs[j] == Err(r.error) &&
                                   forall m :: i <= m < j ==> rs[m].Ok?
  {
    if i < |rs| {
      ScanSlotsSpec(rs, i + 1, if rs[i].Ok? then acc[i + FIRST_RECORD_NO := rs[i].value] else acc);
      var r := ScanSlots(rs, i, acc);
      if rs[i].Err? {
        assert r.Err? && rs[i] == Err(r.error);
      } else if r.Err? {
        var j :| i + 1 <= j < |rs| && rs[j] == Err(r.error) && forall m :: i + 1 <= m < j ==> rs[m].Ok?;
        assert forall m :: i <= m < j ==> rs[m].Ok?;
      }
    }
  }

  /** `loadAllRecords` fails exactly when some slot in the file has a flag
      byte other than 0 or 1, and then with BadFlag. Otherwise it holds
      every slot, INVALID ones included, under the ids 1, 2, 3, ... in file
      order, each decoded as `loadRecord` would. */
  lemma DecodeAllSpec(c: seq<byte>, firstRecordOffset: nat)
    ensures var n := SlotCount(c, firstRecordOffset);
            DecodeAll(c, firstRecordOffset).Ok?
            <==> forall j :: FIRST_RECORD_NO <= j <= n ==> FlagReadable(c, firstRecordOffset, j)
    ensures DecodeAll(c, firstRecordOffset).Err? ==> DecodeAll(c, firstRecordOffset).error == BadFlag
    ensures var n := SlotCount(c, firstRecordOffset);
            var r := DecodeAll(c, firstRecordOffset);
            r.Ok? ==>
              && (forall j :: j in r.value <==> FIRST_RECORD_NO <= j <= n)
              && (forall j :: FIRST_RECORD_NO <= j <= n ==>
                    LoadRecordSpec(c, firstRecordOffset, j) == Ok(r.value[j]) && r.value[j].id == j)
  {
    var rs := SlotResults(c, firstRecordOffset);
    var n := SlotCount(c, firstRecordOffset);
    ScanSlotsSpec(rs, 0, map[]);
    forall j | FIRST_RECORD_NO <= j <= n
      ensures rs[j - FIRST_RECORD_NO] == LoadRecordSpec(c, firstRecordOffset, j)
      ensures rs[j - FIRST_RECORD_NO].Ok? <==> FlagReadable(c, firstRecordOffset, j)
      ensures rs[j - FIRST_RECORD_NO].Err? ==> rs[j - FIRST_RECORD_NO].error == BadFlag
      ensures rs[j - FIRST_RECORD_NO].Ok? ==> rs[j - FIRST_RECORD_NO].value.id == j
    {
      SlotResultAt(c, firstRecordOffset, j);
    }
    var r := DecodeAll(c, firstRecordOffset);
    if r.Err? {
      var j :| 0 <= j < |rs| && rs[j] == Err(r.error) && forall m :: 0 <= m < j ==> rs[m].Ok?;
      assert rs[(j + FIRST_RECORD_NO) - FIRST_RECORD_NO] == rs[j];
    } else {
      forall j | FIRST_RECORD_NO <= j <= n
        ensures LoadRecordSpec(c, firstRecordOffset, j) == Ok(r.value[j]) && r.value[j].id == j
      {
        assert r.value[(j - FIRST_RECORD_NO) + FIRST_RECORD_NO] == rs[j - FIRST_RECORD_NO].value;
      }
    }
  }

  /** The slots end where a slot's flag byte lies beyond the file. */
  lemma SlotsEndAt(c: seq<byte>, firstRecordOffset: nat, j: int)
    requires FIRST_RECORD_NO <= j && SlotOffset(firstRecordOffset, j) >= |c|
    requires j - FIRST_RECORD_NO <= SlotCount(c, firstRecordOffset)
    ensures j - FIRST_RECORD_NO == SlotCount(c, firstRecordOffset)
  {
  }

  /** A slot whose offset lies inside the file is one of its slots. */
  lemma SlotInFile(c: seq<byte>, firstRecordOffset: nat, j: int)
    requires FIRST_RECORD_NO <= j && SlotOffset(firstRecordOffset, j) < |c|
    ensures j <= SlotCount(c, firstRecordOffset)
  {
  }

  /** Slot `j` of the file: what `loadRecord(j)` gives, which succeeds
      exactly when its flag byte is readable and otherwise fails with
      BadFlag. */
  lemma SlotResultAt(c: seq<byte>, firstRecordOffset: nat, j: int)
    requires FIRST_RECORD_NO <= j <= SlotCount(c, firstRecordOffset)
    ensures var r := SlotResults(c, firstRecordOffset)[j - FIRST_RECORD_NO];
            && r == LoadRecordSpec(c, firstRecordOffset, j)
            && (r.Ok? <==> FlagReadable(c, firstRecordOffset, j))
            && (r.Err? ==> r.error == BadFlag)
            && (r.Ok? ==> r.value.id == j)
  {
    var p := SlotOffset(firstRecordOffset, j);
    assert p < |c|;
  }

  // ---------------------------------------------------------------------
  // Writing a slot
  // ---------------------------------------------------------------------

  /** The bytes of consecutive strings. */
  function EncodeAll(ss: seq<string>): seq<byte> {
    if ss == [] then [] else EncodeAll(ss[..|ss| - 1]) + EncodeString(ss[|ss| - 1])
  }

  lemma EncodeAllSnoc(ss: seq<string>, i: nat)
    requires i < |ss|
    ensures EncodeAll(ss[..i + 1]) == EncodeAll(ss[..i]) + EncodeString(ss[i])
  {
    assert ss[..i + 1][..i] == ss[..i];
  }

  /** What `storeNext(record)` writes: the flag ordinal and the field
      texts. */
  function SlotBytes(r: ContractorValue): seq<byte> {
    [r.flag.Ordinal()] + EncodeAll(FieldStrings(r))
  }

  /** The characters of a record's text fields and rate fit in a byte. */
  predicate Latin1Record(r: ContractorValue) {
    Latin1(r.name) && Latin1(r.location) && Latin1(r.specialties) && Latin1(r.rate.text)
  }

  lemma {:induction false} EncodeAllPrefix(ss: seq<string>, i: nat)
    requires i <= |ss| <= FIELDS_COUNT
    requires forall j :: 0 <= j < |ss| ==> |ss[j]| == FIELD_LENGTHS[j]
    ensures |EncodeAll(ss[..i])| == FieldOffset(i)
    ensures EncodeAll(ss[..i]) <= EncodeAll(ss)
    decreases |ss|
  {
    if |ss| == 0 {
      return;
    }
    var init := ss[..|ss| - 1];
    assert EncodeAll(ss) == EncodeAll(init) + EncodeString(ss[|ss| - 1]);
    if i == |ss| {
      assert ss[..i] == ss;
      var k := i - 1;
      EncodeAllPrefix(init, k);
      assert init[..k] == init;
      assert ss[..i][..k] == init;
    } else {
      EncodeAllPrefix(init, i);
      assert init[..i] == ss[..i];
    }
  }

  /** Field `i` of a record sits at its field offset inside the encoded
      fields. */
  lemma EncodeAllField(ss: seq<string>, i: nat)
    requires |ss| == FIELDS_COUNT && i < FIELDS_COUNT
    requires forall j :: 0 <= j < |ss| ==> |ss[j]| == FIELD_LENGTHS[j]
    ensures |EncodeAll(ss)| == RECORD_LENGTH
    ensures FieldOffset(i) + FIELD_LENGTHS[i] == FieldOffset(i + 1) <= RECORD_LENGTH
    ensures EncodeAll(ss)[FieldOffset(i)..FieldOffset(i + 1)] == EncodeString(ss[i])
  {
    FieldOffsetsEndAtRecordLength();
    FieldOffsetMonotone(i + 1, FIELDS_COUNT);
    EncodeAllLength(ss);
    EncodeAllPrefix(ss, i);
    EncodeAllPrefix(ss, i + 1);
    EncodeAllSnoc(ss, i);
    SliceAfterPrefix(EncodeAll(ss[..i]), EncodeString(ss[i]), EncodeAll(ss[..i + 1]), EncodeAll(ss));
  }

  /** The six encoded fields are a record's 182 bytes. */
  lemma EncodeAllLength(ss: seq<string>)
    requires |ss| == FIELDS_COUNT
    requires forall j :: 0 <= j < |ss| ==> |ss[j]| == FIELD_LENGTHS[j]
    ensures |EncodeAll(ss)| == RECORD_LENGTH
  {
    EncodeAllPrefix(ss, FIELDS_COUNT);
    assert ss[..FIELDS_COUNT] == ss;
    FieldOffsetsEndAtRecordLength();
  }

  /** In a sequence that starts with `a + s`, `s` follows `a`. */
  lemma SliceAfterPrefix(a: seq<byte>, s: seq<byte>, b: seq<byte>, e: seq<byte>)
    requires b == a + s && b <= e
    ensures |a| + |s| <= |e| && e[|a|..|a| + |s|] == s
  {
    assert e[|a|..|a| + |s|] == b[|a|..];
  }

  /** `storeNext` writes 183 bytes. */
  lemma SlotBytesLength(r: ContractorValue)
    requires WellFormed(r)
    ensures |SlotBytes(r)| == SLOT_LENGTH
  {
    EncodeAllField(FieldStrings(r), 0);
  }

  /** Where a device failure strikes `storeRecord`: nowhere, or on the
      write that follows the first `writes` of the seven writes of
      `storeNext` (the flag byte, then one write per field text). */
  datatype Fault = NoFault | FailAfter(writes: StoreWrites)

  /** How many writes of `storeNext` can succeed before one fails. */
  type StoreWrites = k: int | 0 <= k <= FIELDS_COUNT

  /** The bytes of the first `k` writes of `storeNext(r)`. */
  function SlotBytesBefore(r: ContractorValue, k: StoreWrites): seq<byte> {
    if k == 0 then [] else [r.flag.Ordinal()] + EncodeAll(FieldStrings(r)[..k - 1])
  }

  /** The file after `storeNext(r)` at `p`, run to the end or cut short by
      `fault`. */
  function StoredContents(c: seq<byte>, p: nat, r: ContractorValue, fault: Fault): seq<byte> {
    match fault
    case NoFault => WriteAt(c, p, SlotBytes(r))
    case FailAfter(k) => if k == 0 then c else WriteAt(c, p, SlotBytesBefore(r, k))
  }

  /** What the writes before a failure leave is a proper prefix of the
      slot: one byte for the flag and then whole field texts. */
  lemma SlotBytesBeforePrefix(r: ContractorValue, k: StoreWrites)
    requires WellFormed(r)
    ensures SlotBytesBefore(r, k) <= SlotBytes(r)
    ensures |SlotBytesBefore(r, k)| == if k == 0 then 0 else 1 + FieldOffset(k - 1)
    ensures |SlotBytesBefore(r, k)| < SLOT_LENGTH
  {
    SlotBytesLength(r);
    if k > 0 {
      var ss := FieldStrings(r);
      EncodeAllPrefix(ss, k - 1);
      FieldOffsetMonotone(k - 1, FIELDS_COUNT - 1);
      assert FieldOffset(FIELDS_COUNT - 1) == 174;
      PrefixAfterByte(r.flag.Ordinal(), EncodeAll(ss[..k - 1]), EncodeAll(ss));
    }
  }

  lemma PrefixAfterByte(x: byte, a: seq<byte>, b: seq<byte>)
    requires a <= b
    ensures [x] + a <= [x] + b
  {
    assert ([x] + b)[..1 + |a|] == [x] + a;
  }

  /** A store that fails writes a proper prefix of the record's slot and
      changes no other byte; the file grows only up to the end of what was
      written. */
  lemma FailedStoreWritesSlotPrefix(c: seq<byte>, p: nat, r: ContractorValue, k: StoreWrites, i: nat)
    requires WellFormed(r)
    ensures var d := StoredContents(c, p, r, FailAfter(k));
            var n := |SlotBytesBefore(r, k)|;
            && n < SLOT_LENGTH == |SlotBytes(r)|
            && |d| == (if n > 0 && |c| < p + n then p + n else |c|)
            && (p <= i < p + n ==> d[i] == SlotBytes(r)[i - p])
            && (i < |c| && !(p <= i < p + n) ==> d[i] == c[i])
  {
    SlotBytesBeforePrefix(r, k);
    SlotBytesLength(r);
    var w := SlotBytesBefore(r, k);
    if k > 0 && i < |WriteAt(c, p, w)| {
      WriteAtByte(c, p, w, i);
      if p <= i < p + |w| {
        assert w[i - p] == SlotBytes(r)[i - p];
      }
    }
  }

  lemma FieldStringsLatin1(r: ContractorValue, i: nat)
    requires Latin1Record(r) && i < FIELDS_COUNT
    ensures Latin1(FieldStrings(r)[i])
  {
    if i == 3 {
      DecimalLatin1(r.size);
      PaddedLatin1(Decimal(r.size), FIELD_LENGTHS[3]);
    } else if i == 4 {
      PaddedLatin1(r.rate.text, FIELD_LENGTHS[4]);
    } else if i == 5 {
      if r.owner != UNSAVED_RECORD_NO {
        DecimalLatin1(r.owner);
      }
      PaddedLatin1(ToString(r.owner, UNSAVED_RECORD_NO), FIELD_LENGTHS[5]);
    }
  }

  lemma PaddedLatin1(s: string, length: nat)
    requires Latin1(s)
    ensures Latin1(SetStringLength(s, length))
  {
  }

  lemma DecimalLatin1(v: int)
    ensures Latin1(Decimal(v))
  {
    DecimalTail(v);
  }

  /** Reading `n` bytes at `o` past the flag byte of a slot written as a
      flag byte and then `e` gives `e[o..o + n]`. */
  lemma ReadPastFlag(c: seq<byte>, p: nat, flag: byte, e: seq<byte>, o: nat, n: nat)
    requires o + n <= |e|
    ensures ReadAt(WriteAt(c, p, [flag] + e), p + 1 + o, n) == e[o..o + n]
  {
    ReadAtWritten(c, p, [flag] + e, p + 1 + o, n);
    assert ([flag] + e)[1 + o..1 + o + n] == e[o..o + n];
  }

  /** Field `i` of a slot written as a flag byte then the encoded field
      texts reads back as the encoding of that text. */
  lemma SlotFieldReadBack(c: seq<byte>, p: nat, flag: byte, ss: seq<string>, i: nat)
    requires |ss| == FIELDS_COUNT && i < FIELDS_COUNT
    requires forall j :: 0 <= j < |ss| ==> |ss[j]| == FIELD_LENGTHS[j]
    ensures ReadAt(WriteAt(c, p, [flag] + EncodeAll(ss)), p + 1 + FieldOffset(i), FIELD_LENGTHS[i])
         == EncodeString(ss[i])
  {
    EncodeAllField(ss, i);
    ReadPastFlag(c, p, flag, EncodeAll(ss), FieldOffset(i), FIELD_LENGTHS[i]);
  }

  /** The field texts read at `q` are `ss` when each field's bytes are the
      encoding of its text and every text fits in a byte per character. */
  lemma FieldTextsAtEncoded(d: seq<byte>, q: nat, ss: seq<string>)
    requires |ss| == FIELDS_COUNT
    requires forall j :: 0 <= j < |ss| ==> Latin1(ss[j])
    requires forall j :: 0 <= j < |ss| ==> ReadAt(d, q + FieldOffset(j), FIELD_LENGTHS[j]) == EncodeString(ss[j])
    ensures FieldTextsAt(d, q) == ss
  {
    var texts := FieldTextsAt(d, q);
    forall i | 0 <= i < FIELDS_COUNT
      ensures texts[i] == ss[i]
    {
      var bs := ReadAt(d, q + FieldOffset(i), FIELD_LENGTHS[i]);
      assert texts[i] == DecodeString(bs);
      assert bs == EncodeString(ss[i]);
      DecodeEncode(ss[i]);
    }
    assert |texts| == |ss|;
  }

  /** All the field texts of such a slot read back, when they fit in a
      byte per character. */
  lemma SlotFieldsReadBack(c: seq<byte>, p: nat, flag: byte, ss: seq<string>)
    requires |ss| == FIELDS_COUNT
    requires forall j :: 0 <= j < |ss| ==> |ss[j]| == FIELD_LENGTHS[j] && Latin1(ss[j])
    ensures FieldTextsAt(WriteAt(c, p, [flag] + EncodeAll(ss)), p + 1) == ss
  {
    SlotFieldsReadAll(c, p, flag, ss);
    FieldTextsAtEncoded(WriteAt(c, p, [flag] + EncodeAll(ss)), p + 1, ss);
  }

  lemma SlotFieldsReadAll(c: seq<byte>, p: nat, flag: byte, ss: seq<string>)
    requires |ss| == FIELDS_COUNT
    requires forall j :: 0 <= j < |ss| ==> |ss[j]| == FIELD_LENGTHS[j]
    ensures forall j :: 0 <= j < |ss| ==>
              ReadAt(WriteAt(c, p, [flag] + EncodeAll(ss)), p + 1 + FieldOffset(j), FIELD_LENGTHS[j])
              == EncodeString(ss[j])
  {
    forall j | 0 <= j < |ss|
      ensures ReadAt(WriteAt(c, p, [flag] + EncodeAll(ss)), p + 1 + FieldOffset(j), FIELD_LENGTHS[j])
              == EncodeString(ss[j])
    {
      SlotFieldReadBack(c, p, flag, ss, j);
    }
  }

  /** The field texts of a slot that has just been stored read back as
      the texts that were written. */
  lemma StoredFieldsReadBack(c: seq<byte>, p: nat, r: ContractorValue)
    requires WellFormed(r) && Latin1Record(r)
    ensures FieldTextsAt(WriteAt(c, p, SlotBytes(r)), p + 1) == FieldStrings(r)
  {
    var ss := FieldStrings(r);
    forall j | 0 <= j < FIELDS_COUNT ensures Latin1(ss[j]) {
      FieldStringsLatin1(r, j);
    }
    SlotFieldsReadBack(c, p, r.flag.Ordinal(), ss);
  }

  /** Reading back a slot that has just been stored. */
  lemma LoadStoredSlot(c: seq<byte>, firstRecordOffset: nat, r: ContractorValue)
    requires WellFormed(r) && Latin1Record(r) && r.id >= FIRST_RECORD_NO
    ensures var p := SlotOffset(firstRecordOffset, r.id);
            LoadRecordSpec(WriteAt(c, p, SlotBytes(r)), firstRecordOffset, r.id)
            == Ok(FromStrings(FieldStrings(r)).value.(id := r.id, flag := r.flag))
  {
    var p := SlotOffset(firstRecordOffset, r.id);
    var d := WriteAt(c, p, SlotBytes(r));
    SlotBytesLength(r);
    assert d[p] == r.flag.Ordinal();
    assert FlagOfOrdinal(SignedByte(d[p])) == Some(r.flag);
    StoredFieldsReadBack(c, p, r);
  }

  /** `loadRecord(id)` after `storeRecord(r)` gives a record with the same
      field texts and flag, and the id asked for. */
  lemma StoreThenLoad(c: seq<byte>, firstRecordOffset: nat, r: ContractorValue)
    requires WellFormed(r) && Latin1Record(r) && r.id >= FIRST_RECORD_NO
    ensures var d := WriteAt(c, SlotOffset(firstRecordOffset, r.id), SlotBytes(r));
            var loaded := LoadRecordSpec(d, firstRecordOffset, r.id);
            loaded.Ok? && loaded.value.id == r.id && loaded.value.flag == r.flag
            && FieldStrings(loaded.value) == FieldStrings(r)
  {
    LoadStoredSlot(c, firstRecordOffset, r);
    FieldStringsStable(r);
  }

  /** Where the slot at `p` ends in the file: after its 183 bytes, or
      earlier where the file ends. */
  function SlotEnd(c: seq<byte>, p: nat): nat {
    if |c| < p + SLOT_LENGTH then |c| else p + SLOT_LENGTH
  }

  /** Decoding a slot reads its 183 bytes and nothing else: two files
      that both end before the slot, or that end at the same place inside
      or after it and agree on its bytes, decode it alike. */
  lemma DecodeSlotLocal(c: seq<byte>, d: seq<byte>, p: nat, id: int)
    requires p < |c| || p < |d| ==> SlotEnd(c, p) == SlotEnd(d, p)
    requires forall i :: p <= i < SlotEnd(c, p) && i < |d| ==> c[i] == d[i]
    ensures DecodeSlot(c, p, id) == DecodeSlot(d, p, id)
  {
    if p < |c| || p < |d| {
      FieldTextsAgree(c, d, p + 1);
    }
  }

  /** The same for the six field texts of a record read at `q`. */
  lemma FieldTextsAgree(c: seq<byte>, d: seq<byte>, q: nat)
    requires |c| == |d| || (q + RECORD_LENGTH <= |c| && q + RECORD_LENGTH <= |d|)
    requires forall i :: q <= i < q + RECORD_LENGTH && i < |c| && i < |d| ==> c[i] == d[i]
    ensures FieldTextsAt(c, q) == FieldTextsAt(d, q)
  {
    forall i | 0 <= i < FIELDS_COUNT
      ensures FieldTextsAt(c, q)[i] == FieldTextsAt(d, q)[i]
    {
      FieldTextAgrees(c, d, q, i);
    }
  }

  lemma FieldTextAgrees(c: seq<byte>, d: seq<byte>, q: nat, i: nat)
    requires i < FIELDS_COUNT
    requires |c| == |d| || (q + RECORD_LENGTH <= |c| && q + RECORD_LENGTH <= |d|)
    requires forall x :: q <= x < q + RECORD_LENGTH && x < |c| && x < |d| ==> c[x] == d[x]
    ensures FieldTextsAt(c, q)[i] == FieldTextsAt(d, q)[i]
  {
    var o := FieldOffset(i);
    assert o + FIELD_LENGTHS[i] <= RECORD_LENGTH by {
      FieldOffsetsEndAtRecordLength();
      FieldOffsetMonotone(i + 1, FIELDS_COUNT);
    }
    ReadAtAgree(c, d, q + o, FIELD_LENGTHS[i]);
    FieldTextAt(c, q, i);
    FieldTextAt(d, q, i);
  }

  /** Two files that are equally long, or both hold bytes `q` to
      `q + k`, and agree on the bytes of that range they hold, read the
      same `k` bytes at `q`. */
  lemma ReadAtAgree(c: seq<byte>, d: seq<byte>, q: nat, k: nat)
    requires |c| == |d| || (q + k <= |c| && q + k <= |d|)
    requires forall i :: q <= i < q + k && i < |c| && i < |d| ==> c[i] == d[i]
    ensures ReadAt(c, q, k) == ReadAt(d, q, k)
  {
  }

  lemma {:induction false} FieldOffsetMonotone(i: nat, j: nat)
    requires i <= j <= FIELDS_COUNT
    ensures FieldOffset(i) <= FieldOffset(j)
    decreases j - i
  {
    if i < j {
      FieldOffsetMonotone(i, j - 1);
    }
  }

  /** Storing record `r`, whether it runs to the end or fails part way,
      changes no later slot, and no earlier slot the file holds in full.
      (An earlier slot the file does not hold in full can change: writing
      past the end of the file fills the gap with zeros, see
      `StoreFillsEarlierGap`.) */
  lemma StoreKeepsOtherSlots(c: seq<byte>, firstRecordOffset: nat, r: ContractorValue, fault: Fault, j: int)
    requires WellFormed(r) && r.id >= FIRST_RECORD_NO && j >= FIRST_RECORD_NO && j != r.id
    requires j > r.id || SlotOffset(firstRecordOffset, j) + SLOT_LENGTH <= |c|
    ensures var d := StoredContents(c, SlotOffset(firstRecordOffset, r.id), r, fault);
            LoadRecordSpec(d, firstRecordOffset, j) == LoadRecordSpec(c, firstRecordOffset, j)
  {
    var p, q := SlotOffset(firstRecordOffset, r.id), SlotOffset(firstRecordOffset, j);
    SlotOffsetsTile(firstRecordOffset, j, r.id);
    SlotOffsetsTile(firstRecordOffset, r.id, j);
    SlotBytesLength(r);
    match fault
    case NoFault =>
      WriteKeepsSlot(c, p, SlotBytes(r), q, j);
    case FailAfter(k) =>
      SlotBytesBeforePrefix(r, k);
      if k > 0 {
        WriteKeepsSlot(c, p, SlotBytesBefore(r, k), q, j);
      }
  }

  /** Writing at most a slot's worth of bytes at `p` leaves the slot at
      `q` decoding as before when it lies wholly after the write, or wholly
      before it and inside the file. */
  lemma WriteKeepsSlot(c: seq<byte>, p: nat, w: seq<byte>, q: nat, id: int)
    requires |w| <= SLOT_LENGTH
    requires p + SLOT_LENGTH <= q || (q + SLOT_LENGTH <= p && q + SLOT_LENGTH <= |c|)
    ensures DecodeSlot(WriteAt(c, p, w), q, id) == DecodeSlot(c, q, id)
  {
    var d := WriteAt(c, p, w);
    if p + SLOT_LENGTH <= q && q < |d| {
      assert |d| == |c|;
    }
    DecodeSlotLocal(c, d, q, id);
  }

  /** Storing record 2 into a file that ends with its header makes slot 1,
      which was beyond the end of the file, a record of zero bytes with the
      VALID flag. */
  lemma StoreFillsEarlierGap(c: seq<byte>, firstRecordOffset: nat, r: ContractorValue)
    requires |c| == firstRecordOffset && WellFormed(r) && r.id == 2
    ensures LoadRecordSpec(c, firstRecordOffset, 1) == Err(LoadIo(EndOfFile))
    ensures var d := StoredContents(c, SlotOffset(firstRecordOffset, r.id), r, NoFault);
            && LoadRecordSpec(d, firstRecordOffset, 1).Ok?
            && LoadRecordSpec(d, firstRecordOffset, 1).value.flag == VALID
  {
    var p := SlotOffset(firstRecordOffset, r.id);
    var d := WriteAt(c, p, SlotBytes(r));
    SlotBytesLength(r);
    assert d[firstRecordOffset] == 0;
  }

  /** Storing writes 183 bytes at the record's slot; every other byte keeps
      its value. */
  lemma StoreWritesOneSlot(c: seq<byte>, firstRecordOffset: nat, r: ContractorValue, i: nat)
    requires WellFormed(r) && r.id >= FIRST_RECORD_NO
    ensures var p := SlotOffset(firstRecordOffset, r.id);
            var d := WriteAt(c, p, SlotBytes(r));
            && |d| == (if |c| < p + SLOT_LENGTH then p + SLOT_LENGTH else |c|)
            && d[p] == r.flag.Ordinal()
            && (i < |c| && !(p <= i < p + SLOT_LENGTH) ==> d[i] == c[i])
  {
    SlotBytesLength(r);
  }

  // ---------------------------------------------------------------------
  // The helper
  // ---------------------------------------------------------------------

  class DBHelper {
    const dbFile: RandomAccessFile
    const firstRecordOffset: nat

    constructor (dbFile: RandomAccessFile, firstRecordOffset: nat)
      ensures this.dbFile == dbFile && this.firstRecordOffset == firstRecordOffset
    {
      this.dbFile := dbFile;
      this.firstRecordOffset := firstRecordOffset;
    }

    /** `new DBHelper(dbFileName)` on a file that exists or not and holds
        `contents`: the header is read field by field and checked. */
    static method Open(fileExists: bool, contents: seq<byte>) returns (r: Result<DBHelper, InitError>)
      ensures !fileExists ==> r == Err(FileMissing)
      ensures fileExists && ParseHeader(contents).Err? ==> r == Err(ParseHeader(contents).error)
      ensures fileExists && ParseHeader(contents).Ok? ==>
                && r.Ok? && fresh(r.value) && fresh(r.value.dbFile)
                && r.value.dbFile.contents == contents
                && r.value.firstRecordOffset == ParseHeader(contents).value
    {
      if !fileExists {
        return Err(FileMissing);
      }
      var file := new RandomAccessFile(contents);
      var _ := file.Seek(0);
      var magic := file.ReadInt();
      if magic.Err? {
        return Err(ReadFailed(magic.error));
      }
      if magic.value != MAGIC_COOKIE {
        return Err(NotValidDatabase);
      }
      var recordLength := file.ReadInt();
      if recordLength.Err? {
        return Err(ReadFailed(recordLength.error));
      }
      if recordLength.value != RECORD_LENGTH {
        return Err(InvalidMetaInfo);
      }
      var fieldsCount := file.ReadShort();
      if fieldsCount.Err? {
        return Err(ReadFailed(fieldsCount.error));
      }
      if fieldsCount.value != FIELDS_COUNT {
        return Err(InvalidMetaInfo);
      }
      var fieldNames: seq<string> := [];
      var fieldLengths: seq<int> := [];
      for i := 0 to FIELDS_COUNT
        invariant |fieldNames| == |fieldLengths| == i
        invariant file.contents == contents
        invariant ParseEntries(contents, 10, [], []) == ParseEntries(contents, file.pointer, fieldNames, fieldLengths)
      {
        ghost var p := file.pointer;
        var fieldLength := file.ReadShort();
        if fieldLength.Err? {
          return Err(ReadFailed(fieldLength.error));
        }
        if fieldLength.value < 0 {
          return Err(NegativeArraySize);
        }
        var bytes := file.Read(fieldLength.value);
        var width := file.ReadShort();
        if width.Err? {
          return Err(ReadFailed(width.error));
        }
        ParseEntriesUnfold(contents, p, fieldNames, fieldLengths, fieldLength.value, width.value);
        fieldNames := fieldNames + [DecodeString(bytes)];
        fieldLengths := fieldLengths + [width.value];
      }
      if fieldNames != FIELD_NAMES || fieldLengths != FIELD_LENGTHS {
        return Err(InvalidDataMetaInfo);
      }
      var helper := new DBHelper(file, file.pointer);
      r := Ok(helper);
    }

    /** `seekToRecord(recordNo)`, with the offset computed as intended. */
    method SeekToRecord(recordNo: int) returns (o: Outcome<IoError>)
      modifies dbFile
      ensures dbFile.contents == old(dbFile.contents)
      ensures SlotOffset(firstRecordOffset, recordNo) < 0 ==>
                o == Fail(NegativeSeekOffset) && dbFile.pointer == old(dbFile.pointer)
      ensures SlotOffset(firstRecordOffset, recordNo) >= 0 ==>
                o == Pass && dbFile.pointer == SlotOffset(firstRecordOffset, recordNo)
    {
      o := dbFile.Seek(firstRecordOffset + (recordNo - FIRST_RECORD_NO) * (RECORD_LENGTH + FLAG_LENGTH));
    }

    /** The six `read(new byte[FIELD_LENGTHS[i]])` calls of a record. */
    method ReadFieldValues() returns (values: seq<string>)
      modifies dbFile
      ensures dbFile.contents == old(dbFile.contents)
      ensures values == FieldTextsAt(dbFile.contents, old(dbFile.pointer))
      ensures dbFile.pointer == Advance(dbFile.contents, old(dbFile.pointer), RECORD_LENGTH)
    {
      ghost var q := dbFile.pointer;
      ghost var c := dbFile.contents;
      values := [];
      for i := 0 to FIELDS_COUNT
        invariant dbFile.contents == c
        invariant values == FieldTextsAt(c, q)[..i]
        invariant dbFile.pointer == Advance(c, q, FieldOffset(i))
      {
        var bytes := dbFile.Read(FIELD_LENGTHS[i]);
        ReadNextField(c, q, i, bytes);
        FieldTextAt(c, q, i);
        AdvanceAdvance(c, q, FieldOffset(i), FIELD_LENGTHS[i]);
        TakeOneMore(FieldTextsAt(c, q), i, values, ReadAt(c, q + FieldOffset(i), FIELD_LENGTHS[i]), bytes);
        values := values + [DecodeString(bytes)];
      }
      TakeAll(FieldTextsAt(c, q));
      FieldOffsetsEndAtRecordLength();
    }

    /** The steps `loadRecord` and each turn of `loadAllRecords` share:
        read the flag byte at the file pointer, then the six field texts,
        and build the record with number `recordNo`. Reading the flag byte
        at the end of the file fails with EndOfFile. */
    method ReadSlot(recordNo: int) returns (r: Result<ContractorValue, LoadError>)
      modifies dbFile
      ensures dbFile.contents == old(dbFile.contents)
      ensures r == DecodeSlot(dbFile.contents, old(dbFile.pointer), recordNo)
      ensures old(dbFile.pointer) < |dbFile.contents| ==>
                dbFile.pointer == Advance(dbFile.contents, old(dbFile.pointer) + 1, RECORD_LENGTH)
    {
      ghost var p := dbFile.pointer;
      ghost var c := dbFile.contents;
      var flag := dbFile.ReadByte();
      if flag.Err? {
        return Err(LoadIo(flag.error));
      }
      assert flag.value == SignedByte(c[p]);
      var values := ReadFieldValues();
      assert values == FieldTextsAt(c, p + 1);
      DecodeSlotOf(c, p, recordNo, flag.value, values);
      var record := FromStrings(values).value;
      record := record.(id := recordNo);
      var f := FlagOfOrdinal(flag.value);
      if f.None? {
        return Err(BadFlag);
      }
      r := Ok(record.(flag := f.value));
    }

    /** `loadRecord(recordNo)`. */
    method LoadRecord(recordNo: int) returns (r: Result<ContractorValue, LoadError>)
      modifies dbFile
      ensures dbFile.contents == old(dbFile.contents)
      ensures r == LoadRecordSpec(dbFile.contents, firstRecordOffset, recordNo)
    {
      if recordNo < FIRST_RECORD_NO {
        return Err(IllegalRecordNumber);
      }
      var _ := SeekToRecord(recordNo);
      r := ReadSlot(recordNo);
    }

    /** `loadAllRecords()`: slot after slot from record 1 until the flag
        byte is beyond the end of the file. */
    method LoadAllRecords() returns (r: Result<map<int, ContractorValue>, LoadError>)
      modifies dbFile
      ensures dbFile.contents == old(dbFile.contents)
      ensures r == DecodeAll(dbFile.contents, firstRecordOffset)
    {
      var _ := SeekToRecord(FIRST_RECORD_NO);
      ghost var c := dbFile.contents;
      ghost var rs := SlotResults(c, firstRecordOffset);
      var records: map<int, ContractorValue> := map[];
      var recIdx := FIRST_RECORD_NO;
      while true
        invariant dbFile.contents == c
        invariant recIdx >= FIRST_RECORD_NO
        invariant dbFile.pointer < |c| ==> dbFile.pointer == SlotOffset(firstRecordOffset, recIdx)
        invariant dbFile.pointer >= |c| ==> SlotOffset(firstRecordOffset, recIdx) >= |c|
        invariant recIdx - FIRST_RECORD_NO <= |rs|
        invariant DecodeAll(c, firstRecordOffset) == ScanSlots(rs, recIdx - FIRST_RECORD_NO, records)
        decreases if dbFile.pointer < |c| then |c| - dbFile.pointer else 0
      {
        ghost var p := dbFile.pointer;
        var slot := ReadSlot(recIdx);
        if slot == Err(LoadIo(EndOfFile)) {
          SlotsEndAt(c, firstRecordOffset, recIdx);
          break;
        }
        SlotInFile(c, firstRecordOffset, recIdx);
        SlotResultAt(c, firstRecordOffset, recIdx);
        ScanSlotsStep(rs, recIdx - FIRST_RECORD_NO, records);
        recIdx := recIdx + 1;
        if slot.Err? {
          return Err(slot.error);
        }
        records := records[slot.value.id := slot.value];
      }
      r := Ok(records);
    }

    /** `storeRecord(record)`: seek to the record's slot, then `storeNext`:
        the flag ordinal as one byte and each field text's bytes. A negative
        offset fails the seek before anything is written; a device failure
        (`fault`) stops the seven writes after the number it gives, and the
        writes done before it stay in the file. */
    method StoreRecord(record: ContractorValue, fault: Fault) returns (o: Outcome<IoError>)
      modifies dbFile
      ensures SlotOffset(firstRecordOffset, record.id) < 0 ==>
                o == Fail(NegativeSeekOffset) && dbFile.contents == old(dbFile.contents)
      ensures SlotOffset(firstRecordOffset, record.id) >= 0 ==>
                o == (if fault.NoFault? then Pass else Fail(DeviceFailure))
                && dbFile.contents == StoredContents(old(dbFile.contents), SlotOffset(firstRecordOffset, record.id),
                                                     record, fault)
    {
      o := SeekToRecord(record.id);
      if o.Fail? {
        return;
      }
      o := StoreNext(record, fault);
    }

    /** `storeNext(record)`: the flag ordinal as one byte, then the bytes of
        each field text, at the file pointer; `FailAfter(k)` makes write
        number k + 1 fail. */
    method StoreNext(record: ContractorValue, fault: Fault) returns (o: Outcome<IoError>)
      modifies dbFile
      ensures o == (if fault.NoFault? then Pass else Fail(DeviceFailure))
      ensures dbFile.contents == StoredContents(old(dbFile.contents), old(dbFile.pointer), record, fault)
    {
      if fault == FailAfter(0) {
        return Fail(DeviceFailure);
      }
      var strings := FieldStrings(record);
      if fault.NoFault? {
        WriteSlotPrefix(record.flag.Ordinal(), strings);
        o := Pass;
      } else {
        WriteSlotPrefix(record.flag.Ordinal(), strings[..fault.writes - 1]);
        o := Fail(DeviceFailure);
      }
    }

    /** `dbFile.writeByte(flag)`, then `dbFile.write(datum.getBytes())` for
        each of `strings`, one write after another. */
    method WriteSlotPrefix(flag: byte, strings: seq<string>)
      modifies dbFile
      ensures dbFile.contents == WriteAt(old(dbFile.contents), old(dbFile.pointer), [flag] + EncodeAll(strings))
    {
      ghost var p := dbFile.pointer;
      ghost var c := dbFile.contents;
      assert [flag % 256] == [flag];
      dbFile.WriteByte(flag);
      WriteStrings(strings);
      WriteAtConcat(c, p, [flag], EncodeAll(strings));
    }

    /** `dbFile.write(datum.getBytes())` for each string in turn. */
    method WriteStrings(strings: seq<string>)
      requires dbFile.pointer <= |dbFile.contents|
      modifies dbFile
      ensures dbFile.contents == WriteAt(old(dbFile.contents), old(dbFile.pointer), EncodeAll(strings))
      ensures dbFile.pointer == old(dbFile.pointer) + |EncodeAll(strings)|
    {
      ghost var p := dbFile.pointer;
      ghost var c := dbFile.contents;
      ghost var written: seq<byte> := [];
      assert WriteAt(c, p, []) == c;
      for i := 0 to |strings|
        invariant written == EncodeAll(strings[..i])
        invariant dbFile.contents == WriteAt(c, p, written)
        invariant dbFile.pointer == p + |written|
      {
        var bytes := EncodeString(strings[i]);
        EncodeAllSnoc(strings, i);
        WriteAtConcat(c, p, written, bytes);
        dbFile.Write(bytes);
        written := written + bytes;
      }
      assert strings[..|strings|] == strings;
    }
  }
}
