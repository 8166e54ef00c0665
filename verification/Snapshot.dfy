/**
  Snapshot files: a stream of records, and one arena of floats that every
  record's embedding is a slice of.  Floats and doubles are bit patterns.
 */
module Snapshot {
  import opened Vectors
  import opened Records
  import opened Bytes
  import opened Fields

  type Record = MemoryRecord<nat, nat>
  type Entry = CacheEntry<nat>

  /** What a snapshot holds. */
  datatype Image = Image(dim: nat, nextMemoryId: nat, nextCacheId: nat, memories: seq<Record>, caches: seq<Entry>)

  // ---------------------------------------------------------------------
  // Rows: the fields of a record, and its embedding kept in the arena.
  // ---------------------------------------------------------------------

  datatype Row = Row(fields: seq<Field>, embedding: seq<nat>)

  /** A row's fields, then where in the arena its embedding is. */
  function RowFields(row: Row, offset: nat): seq<Field> {
    row.fields + [U64(offset), U64(|row.embedding|)]
  }

  function RowLayout(layout: seq<Kind>): seq<Kind> {
    layout + [KU64, KU64]
  }

  function Arena(rows: seq<Row>): seq<nat> {
    if rows == [] then [] else rows[0].embedding + Arena(rows[1..])
  }

  /** The rows' bytes when the arena already holds `offset` floats. */
  function RowsBytes(rows: seq<Row>, offset: nat): seq<Byte> {
    if rows == [] then [] else PutAll(RowFields(rows[0], offset)) + RowsBytes(rows[1..], offset + |rows[0].embedding|)
  }

  predicate Inside(fs: seq<Field>, arena: seq<nat>)
    requires |fs| >= 2
  {
    NumOf(fs[|fs| - 2]) <= |arena| && NumOf(fs[|fs| - 1]) <= |arena| - NumOf(fs[|fs| - 2])
  }

  function RowOf(fs: seq<Field>, arena: seq<nat>): Row
    requires |fs| >= 2 && Inside(fs, arena)
  {
    var offset, count := NumOf(fs[|fs| - 2]), NumOf(fs[|fs| - 1]);
    Row(fs[..|fs| - 2], arena[offset..offset + count])
  }

  function ReadRow(layout: seq<Kind>, data: seq<Byte>, arena: seq<nat>): (r: Option<(Row, nat)>)
    ensures r.Some? ==> r.value.1 <= |data|
  {
    var got := GetAll(RowLayout(layout), data);
    if got.None? || !Inside(got.value.0, arena) then None else Some((RowOf(got.value.0, arena), got.value.1))
  }

  function ReadRows(layout: seq<Kind>, n: nat, data: seq<Byte>, arena: seq<nat>): (r: Option<(seq<Row>, nat)>)
    ensures r.Some? ==> r.value.1 <= |data| && |r.value.0| == n
  {
    if n == 0 then Some(([], 0))
    else
      var first := ReadRow(layout, data, arena);
      if first.None? then None
      else
        var rest := ReadRows(layout, n - 1, data[first.value.1..], arena);
        if rest.None? then None else Some(([first.value.0] + rest.value.0, first.value.1 + rest.value.1))
  }

  /** The row can be written and read back. */
  predicate RowFits(layout: seq<Kind>, row: Row) {
    Kinds(row.fields) == layout && AllFit(row.fields)
  }

  predicate RowsFit(layout: seq<Kind>, rows: seq<Row>) {
    forall i | 0 <= i < |rows| :: RowFits(layout, rows[i])
  }

  lemma RowFieldsFit(layout: seq<Kind>, row: Row, offset: nat)
    requires RowFits(layout, row) && offset < TWO_64 && |row.embedding| < TWO_64
    ensures Kinds(RowFields(row, offset)) == RowLayout(layout) && AllFit(RowFields(row, offset))
  {
    var fs := RowFields(row, offset);
    forall i | 0 <= i < |fs| ensures Fits(fs[i]) && KindOf(fs[i]) == RowLayout(layout)[i] {
      if i < |row.fields| {
        assert fs[i] == row.fields[i];
        assert Kinds(row.fields)[i] == KindOf(fs[i]);
      }
    }
  }

  lemma RowThere(layout: seq<Kind>, row: Row, offset: nat, arena: seq<nat>, rest: seq<Byte>)
    requires RowFits(layout, row) && offset + |row.embedding| <= |arena| < TWO_64
    requires arena[offset..offset + |row.embedding|] == row.embedding
    ensures var bytes := PutAll(RowFields(row, offset));
      ReadRow(layout, bytes + rest, arena) == Some((row, |bytes|))
  {
    hide GetAll;
    hide PutAll;
    hide AllFit;
    RowFieldsFit(layout, row, offset);
    var fs := RowFields(row, offset);
    GetAllUndoesPutAll(fs, rest);
    assert fs[..|fs| - 2] == row.fields;
    assert fs[|fs| - 2] == U64(offset) && fs[|fs| - 1] == U64(|row.embedding|);
    hide RowFields;
    hide RowFits;
  }

  lemma ReadRowsNext(layout: seq<Kind>, n: nat, data: seq<Byte>, arena: seq<nat>, row: Row, k: nat)
    requires n > 0 && k <= |data| && ReadRow(layout, data, arena) == Some((row, k))
    ensures var rest := ReadRows(layout, n - 1, data[k..], arena);
      ReadRows(layout, n, data, arena) == if rest.None? then None else Some(([row] + rest.value.0, k + rest.value.1))
  {
    hide ReadRow;
  }

  /** The arena holds the rows' embeddings from the offset on. */
  predicate Stored(rows: seq<Row>, offset: nat, arena: seq<nat>) {
    offset + |Arena(rows)| <= |arena| && arena[offset..offset + |Arena(rows)|] == Arena(rows)
  }

  lemma StoredNext(rows: seq<Row>, offset: nat, arena: seq<nat>)
    requires rows != [] && Stored(rows, offset, arena)
    ensures var n := |rows[0].embedding|;
      offset + n <= |arena| && arena[offset..offset + n] == rows[0].embedding && Stored(rows[1..], offset + n, arena)
  {
    var n := |rows[0].embedding|;
    var all := arena[offset..offset + |Arena(rows)|];
    assert arena[offset..offset + n] == all[..n];
    assert arena[offset + n..offset + |Arena(rows)|] == all[n..];
  }

  /** Rows written with their arena are read back, whatever follows them. */
  lemma {:induction false} RowsThere(layout: seq<Kind>, rows: seq<Row>, offset: nat, arena: seq<nat>, rest: seq<Byte>)
    requires RowsFit(layout, rows) && Stored(rows, offset, arena) && |arena| < TWO_64
    ensures ReadRows(layout, |rows|, RowsBytes(rows, offset) + rest, arena) == Some((rows, |RowsBytes(rows, offset)|))
    decreases |rows|
  {
    hide ReadRow;
    hide RowFields;
    hide PutAll;
    hide RowFits;
    if rows == [] {
      assert RowsBytes(rows, offset) + rest == rest;
    } else {
      hide ReadRows;
      StoredNext(rows, offset, arena);
      hide Stored;
      var next := offset + |rows[0].embedding|;
      var head, tail := PutAll(RowFields(rows[0], offset)), RowsBytes(rows[1..], next);
      var data := head + (tail + rest);
      Joined(head, tail, rest);
      RowThere(layout, rows[0], offset, arena, tail + rest);
      RowsThere(layout, rows[1..], next, arena, rest);
      assert data[|head|..] == tail + rest;
      ReadRowsNext(layout, |rows|, data, arena, rows[0], |head|);
      assert rows == [rows[0]] + rows[1..];
    }
  }

  lemma RowBack(layout: seq<Kind>, data: seq<Byte>, arena: seq<nat>)
    requires ReadRow(layout, data, arena).Some?
    ensures RowFits(layout, ReadRow(layout, data, arena).value.0)
  {
    hide GetAll;
    hide PutAll;
    GetAllIsPutAll(RowLayout(layout), data);
    var fs := GetAll(RowLayout(layout), data).value.0;
    var n := |fs| - 2;
    forall i | 0 <= i < n ensures KindOf(fs[..n][i]) == layout[i] { assert Kinds(fs)[i] == RowLayout(layout)[i]; }
    assert Kinds(fs[..n]) == layout;
    hide Fits;
  }

  /** Every row that is read could have been written. */
  lemma {:induction false} RowsBack(layout: seq<Kind>, n: nat, data: seq<Byte>, arena: seq<nat>)
    requires ReadRows(layout, n, data, arena).Some?
    ensures RowsFit(layout, ReadRows(layout, n, data, arena).value.0)
  {
    hide ReadRow;
    hide RowFits;
    if n > 0 {
      RowBack(layout, data, arena);
      RowsBack(layout, n - 1, data[ReadRow(layout, data, arena).value.1..], arena);
    }
  }

  predicate AllInside(raw: seq<seq<Field>>, arena: seq<nat>) {
    forall i | 0 <= i < |raw| :: |raw[i]| >= 2 && Inside(raw[i], arena)
  }

  function RowsOf(raw: seq<seq<Field>>, arena: seq<nat>): (rows: seq<Row>)
    requires AllInside(raw, arena)
    ensures |rows| == |raw| && forall i | 0 <= i < |raw| :: rows[i] == RowOf(raw[i], arena)
  {
    seq(|raw|, i requires 0 <= i < |raw| => RowOf(raw[i], arena))
  }

  lemma OneMoreInside(fs: seq<Field>, rest: seq<seq<Field>>, arena: seq<nat>)
    requires |fs| >= 2
    ensures AllInside([fs] + rest, arena) <==> Inside(fs, arena) && AllInside(rest, arena)
    ensures AllInside([fs] + rest, arena) ==> RowsOf([fs] + rest, arena) == [RowOf(fs, arena)] + RowsOf(rest, arena)
  {
    hide Inside;
    hide RowOf;
    var all := [fs] + rest;
    assert all[0] == fs && all[1..] == rest;
    assert AllInside(all, arena) ==> forall i | 0 <= i < |rest| :: rest[i] == all[i + 1];
  }

  /** The fields of n rows, wherever their embeddings are said to be. */
  function RawRows(layout: seq<Kind>, n: nat, data: seq<Byte>): (r: Option<seq<seq<Field>>>)
    ensures r.Some? ==> |r.value| == n
  {
    if n == 0 then Some([])
    else
      var first := GetAll(RowLayout(layout), data);
      if first.None? then None
      else
        var rest := RawRows(layout, n - 1, data[first.value.1..]);
        if rest.None? then None else Some([first.value.0] + rest.value)
  }

  /** Rows are accepted exactly when all their fields are there and no embedding reaches outside the arena. */
  lemma {:induction false} OutsideTheArenaIsRefused(layout: seq<Kind>, n: nat, data: seq<Byte>, arena: seq<nat>)
    ensures var raw := RawRows(layout, n, data);
      ReadRows(layout, n, data, arena).Some? <==> raw.Some? && AllInside(raw.value, arena)
    ensures var raw := RawRows(layout, n, data);
      ReadRows(layout, n, data, arena).Some? ==> ReadRows(layout, n, data, arena).value.0 == RowsOf(raw.value, arena)
  {
    hide GetAll;
    hide Inside;
    hide RowOf;
    if n > 0 && GetAll(RowLayout(layout), data).Some? {
      hide AllInside;
      hide RowsOf;
      var first := GetAll(RowLayout(layout), data).value;
      var rest := RawRows(layout, n - 1, data[first.1..]);
      OutsideTheArenaIsRefused(layout, n - 1, data[first.1..], arena);
      if rest.Some? {
        OneMoreInside(first.0, rest.value, arena);
      }
    }
  }

  // ---------------------------------------------------------------------
  // Memories and cache entries as rows.
  // ---------------------------------------------------------------------

  function MemoryRow(r: Record): Row {
    Row([Text(r.memoryId), Text(r.tenantId), Text(r.namespaceId), Text(r.userId), Text(r.sessionId), Text(r.agentId),
         Text(r.kind), Text(r.content), Text(r.metadataJson), IntField(r.tokenCount), U64(r.importance),
         IntField(r.createdAt), IntField(r.lastAccessed), IntField(r.expiresAt), FlagField(r.pinned), U64(r.accessCount)],
        r.embedding)
  }

  function MemoryLayout(): (ks: seq<Kind>)
    ensures |ks| == 16
  {
    [KText, KText, KText, KText, KText, KText, KText, KText, KText, KU64, KU64, KU64, KU64, KU64, KU8, KU64]
  }

  function MemoryOf(row: Row): Record {
    var fs := row.fields;
    if |fs| != 16 then MemoryRecord("", "", "", "", "", "", "", "", "", [], 0, 0, 0, 0, 0, false, 0)
    else MemoryRecord(
      TextOf(fs[0]), TextOf(fs[1]), TextOf(fs[2]), TextOf(fs[3]), TextOf(fs[4]), TextOf(fs[5]),
      TextOf(fs[6]), TextOf(fs[7]), TextOf(fs[8]), row.embedding, IntOf(fs[9]), NumOf(fs[10]),
      IntOf(fs[11]), IntOf(fs[12]), IntOf(fs[13]), Flag(fs[14]), NumOf(fs[15]))
  }

  predicate MemoryFits(r: Record) {
    && RowFits(MemoryLayout(), MemoryRow(r))
    && Int64(r.tokenCount) && Int64(r.createdAt) && Int64(r.lastAccessed) && Int64(r.expiresAt)
  }

  lemma MemoryThere(r: Record)
    requires MemoryFits(r)
    ensures MemoryOf(MemoryRow(r)) == r
  {
    hide RowFits;
    IntThere(r.tokenCount);
    IntThere(r.createdAt);
    IntThere(r.lastAccessed);
    IntThere(r.expiresAt);
    hide IntOf;
    hide IntField;
  }

  predicate MemoryShaped(fs: seq<Field>) {
    && |fs| == 16
    && fs[0].Text? && fs[1].Text? && fs[2].Text? && fs[3].Text? && fs[4].Text? && fs[5].Text?
    && fs[6].Text? && fs[7].Text? && fs[8].Text? && fs[9].U64? && fs[10].U64?
    && fs[11].U64? && fs[12].U64? && fs[13].U64? && fs[14].U8? && fs[15].U64?
  }

  lemma LaidOutMemory(fs: seq<Field>)
    requires Kinds(fs) == MemoryLayout()
    ensures MemoryShaped(fs)
  {
    forall i | 0 <= i < 16 ensures KindOf(fs[i]) == MemoryLayout()[i] { assert Kinds(fs)[i] == MemoryLayout()[i]; }
    hide Kinds;
  }

  lemma MemoryFieldsBack(row: Row)
    requires MemoryShaped(row.fields)
    requires var fs := row.fields; Fits(fs[9]) && Fits(fs[11]) && Fits(fs[12]) && Fits(fs[13])
    ensures var r := MemoryOf(row); Int64(r.tokenCount) && Int64(r.createdAt) && Int64(r.lastAccessed) && Int64(r.expiresAt)
    ensures MemoryRow(MemoryOf(row)).fields == row.fields[14 := FlagField(Flag(row.fields[14]))]
  {
    var fs := row.fields;
    IntBack(fs[9]);
    IntBack(fs[11]);
    IntBack(fs[12]);
    IntBack(fs[13]);
    hide IntOf;
    hide IntField;
    hide Fits;
    hide Int64;
  }

  lemma MemoryBack(row: Row)
    requires RowFits(MemoryLayout(), row)
    ensures MemoryFits(MemoryOf(row))
  {
    hide Fits;
    hide Int64;
    LaidOutMemory(row.fields);
    MemoryFieldsBack(row);
    FlagFieldFits(Flag(row.fields[14]));
    hide MemoryOf;
    hide MemoryRow;
    assert Kinds(row.fields)[14] == KU8;
    var back := MemoryRow(MemoryOf(row)).fields;
    assert KindOf(back[14]) == KU8;
    assert Kinds(back) == MemoryLayout();
  }

  lemma FlagFieldFits(b: bool)
    ensures Fits(FlagField(b)) && KindOf(FlagField(b)) == KU8
  {
  }

  function CacheRow(e: Entry): Row {
    Row([Text(e.cacheId), Text(e.tenantId), Text(e.namespaceId), Text(e.prompt), Text(e.response), Text(e.metadataJson),
         IntField(e.tokenCount), IntField(e.createdAt), IntField(e.lastAccessed), IntField(e.expiresAt), U64(e.accessCount)],
        e.embedding)
  }

  function CacheLayout(): (ks: seq<Kind>)
    ensures |ks| == 11
  {
    [KText, KText, KText, KText, KText, KText, KU64, KU64, KU64, KU64, KU64]
  }

  function CacheOf(row: Row): Entry {
    var fs := row.fields;
    if |fs| != 11 then CacheEntry("", "", "", "", "", "", [], 0, 0, 0, 0, 0)
    else CacheEntry(
      TextOf(fs[0]), TextOf(fs[1]), TextOf(fs[2]), TextOf(fs[3]), TextOf(fs[4]), TextOf(fs[5]),
      row.embedding, IntOf(fs[6]), IntOf(fs[7]), IntOf(fs[8]), IntOf(fs[9]), NumOf(fs[10]))
  }

  predicate CacheFits(e: Entry) {
    && RowFits(CacheLayout(), CacheRow(e))
    && Int64(e.tokenCount) && Int64(e.createdAt) && Int64(e.lastAccessed) && Int64(e.expiresAt)
  }

  lemma CacheThere(e: Entry)
    requires CacheFits(e)
    ensures CacheOf(CacheRow(e)) == e
  {
    hide RowFits;
    IntThere(e.tokenCount);
    IntThere(e.createdAt);
    IntThere(e.lastAccessed);
    IntThere(e.expiresAt);
    hide IntOf;
    hide IntField;
  }

  lemma CacheBack(row: Row)
    requires RowFits(CacheLayout(), row)
    ensures CacheFits(CacheOf(row))
  {
    var fs := row.fields;
    forall i | 0 <= i < 11 ensures KindOf(fs[i]) == CacheLayout()[i] { assert Kinds(fs)[i] == CacheLayout()[i]; }
    IntBack(fs[6]);
    IntBack(fs[7]);
    IntBack(fs[8]);
    IntBack(fs[9]);
    hide IntOf;
    hide IntField;
    hide Fits;
    hide Int64;
    assert CacheRow(CacheOf(row)).fields == fs;
  }

  function MemoryRows(rs: seq<Record>): (rows: seq<Row>)
    ensures |rows| == |rs| && forall i | 0 <= i < |rs| :: rows[i] == MemoryRow(rs[i])
  {
    seq(|rs|, i requires 0 <= i < |rs| => MemoryRow(rs[i]))
  }

  function MemoriesOf(rows: seq<Row>): (rs: seq<Record>)
    ensures |rs| == |rows| && forall i | 0 <= i < |rows| :: rs[i] == MemoryOf(rows[i])
  {
    seq(|rows|, i requires 0 <= i < |rows| => MemoryOf(rows[i]))
  }

  function CacheRows(es: seq<Entry>): (rows: seq<Row>)
    ensures |rows| == |es| && forall i | 0 <= i < |es| :: rows[i] == CacheRow(es[i])
  {
    seq(|es|, i requires 0 <= i < |es| => CacheRow(es[i]))
  }

  function CachesOf(rows: seq<Row>): (es: seq<Entry>)
    ensures |es| == |rows| && forall i | 0 <= i < |rows| :: es[i] == CacheOf(rows[i])
  {
    seq(|rows|, i requires 0 <= i < |rows| => CacheOf(rows[i]))
  }

  // ---------------------------------------------------------------------
  // The two files.
  // ---------------------------------------------------------------------

  const VERSION: nat := 1

  /** "ZMAIM01" and "ZMAIV01", each with a zero byte. */
  const RECORDS_MAGIC: seq<Byte> := [90, 77, 65, 73, 77, 48, 49, 0]
  const VECTORS_MAGIC: seq<Byte> := [90, 77, 65, 73, 86, 48, 49, 0]

  function Header(img: Image): seq<Field> {
    [U32(VERSION), U64(img.dim), U64(img.nextMemoryId), U64(img.nextCacheId), U64(|img.memories|), U64(|img.caches|)]
  }

  function HeaderLayout(): (ks: seq<Kind>)
    ensures |ks| == 6
  {
    [KU32, KU64, KU64, KU64, KU64, KU64]
  }

  function ImageArena(img: Image): seq<nat> {
    Arena(MemoryRows(img.memories)) + Arena(CacheRows(img.caches))
  }

  function Body(img: Image): seq<Byte> {
    var ms, cs := MemoryRows(img.memories), CacheRows(img.caches);
    PutAll(Header(img)) + (RowsBytes(ms, 0) + RowsBytes(cs, |Arena(ms)|))
  }

  function RecordsFile(img: Image): seq<Byte> {
    RECORDS_MAGIC + Body(img)
  }

  function VectorsFile(img: Image): seq<Byte> {
    VECTORS_MAGIC + (Little(VERSION, 4) + Floats(ImageArena(img)))
  }

  /** The arena of a vectors file, unless its header is wrong or a float is cut short. */
  function ReadArena(file: seq<Byte>): Option<seq<nat>> {
    if |file| < 12 || file[..8] != VECTORS_MAGIC || Number(file[8..12]) != VERSION then None
    else if (|file| - 12) % 4 != 0 then None
    else Some(ReadFloats(file[12..], (|file| - 12) / 4))
  }

  /** The rows a records file announces; bytes after them are ignored. */
  function ReadBody(data: seq<Byte>, arena: seq<nat>): Option<Image> {
    var head := GetAll(HeaderLayout(), data);
    if head.None? || NumOf(head.value.0[0]) != VERSION then None
    else
      var fs := head.value.0;
      var ms := ReadRows(MemoryLayout(), NumOf(fs[4]), data[head.value.1..], arena);
      if ms.None? then None
      else
        var cs := ReadRows(CacheLayout(), NumOf(fs[5]), data[head.value.1 + ms.value.1..], arena);
        if cs.None? then None
        else Some(Image(NumOf(fs[1]), NumOf(fs[2]), NumOf(fs[3]), MemoriesOf(ms.value.0), CachesOf(cs.value.0)))
  }

  function ReadImage(records: seq<Byte>, vectors: seq<Byte>): Option<Image> {
    var arena := ReadArena(vectors);
    if |records| < 8 || records[..8] != RECORDS_MAGIC || arena.None? then None
    else ReadBody(records[8..], arena.value)
  }

  predicate FloatBits(es: seq<nat>) {
    forall i | 0 <= i < |es| :: es[i] < TWO_32
  }

  /** The numbers and lengths are within the format's limits. */
  predicate ImageFits(img: Image) {
    && AllFit(Header(img))
    && (forall i | 0 <= i < |img.memories| :: MemoryFits(img.memories[i]) && FloatBits(img.memories[i].embedding))
    && (forall i | 0 <= i < |img.caches| :: CacheFits(img.caches[i]) && FloatBits(img.caches[i].embedding))
  }

  // ---------------------------------------------------------------------
  // Save, then load.
  // ---------------------------------------------------------------------

  lemma {:induction false} ArenaBits(rows: seq<Row>)
    requires forall i | 0 <= i < |rows| :: FloatBits(rows[i].embedding)
    ensures FloatBits(Arena(rows))
  {
    if rows != [] {
      ArenaBits(rows[1..]);
    }
  }

  lemma ImageArenaBits(img: Image)
    requires ImageFits(img)
    ensures FloatBits(ImageArena(img))
  {
    hide AllFit;
    hide MemoryFits;
    hide CacheFits;
    ArenaBits(MemoryRows(img.memories));
    ArenaBits(CacheRows(img.caches));
    hide Arena;
  }

  lemma ArenaThere(arena: seq<nat>)
    requires FloatBits(arena)
    ensures ReadArena(VECTORS_MAGIC + (Little(VERSION, 4) + Floats(arena))) == Some(arena)
  {
    Widths();
    hide Pow;
    hide Little;
    hide Number;
    hide Floats;
    hide ReadFloats;
    var version, body := Little(VERSION, 4), Floats(arena);
    var file := VECTORS_MAGIC + (version + body);
    NumberOfLittle(VERSION, 4);
    FloatsThere(arena);
    assert file[..8] == VECTORS_MAGIC && file[8..12] == version && file[12..] == body;
  }

  lemma HeaderThere(img: Image, rest: seq<Byte>)
    requires AllFit(Header(img))
    ensures GetAll(HeaderLayout(), PutAll(Header(img)) + rest) == Some((Header(img), |PutAll(Header(img))|))
  {
    hide AllFit;
    hide GetAll;
    hide PutAll;
    assert Kinds(Header(img)) == HeaderLayout();
    GetAllUndoesPutAll(Header(img), rest);
  }

  lemma MemoriesThere(rs: seq<Record>)
    requires forall i | 0 <= i < |rs| :: MemoryFits(rs[i])
    ensures RowsFit(MemoryLayout(), MemoryRows(rs)) && MemoriesOf(MemoryRows(rs)) == rs
  {
    hide MemoryRow;
    hide MemoryOf;
    hide RowFits;
    forall i | 0 <= i < |rs| ensures MemoryOf(MemoryRow(rs[i])) == rs[i] { MemoryThere(rs[i]); }
  }

  lemma CachesThere(es: seq<Entry>)
    requires forall i | 0 <= i < |es| :: CacheFits(es[i])
    ensures RowsFit(CacheLayout(), CacheRows(es)) && CachesOf(CacheRows(es)) == es
  {
    hide CacheRow;
    hide CacheOf;
    hide RowFits;
    forall i | 0 <= i < |es| ensures CacheOf(CacheRow(es[i])) == es[i] { CacheThere(es[i]); }
  }

  lemma ArenaStored(ms: seq<Row>, cs: seq<Row>)
    ensures var arena := Arena(ms) + Arena(cs); Stored(ms, 0, arena) && Stored(cs, |Arena(ms)|, arena)
  {
    hide Arena;
  }

  lemma BodyIs(data: seq<Byte>, arena: seq<nat>, img: Image, head: nat, ms: seq<Row>, k: nat, cs: seq<Row>, l: nat)
    requires GetAll(HeaderLayout(), data) == Some((Header(img), head)) && head + k <= |data|
    requires ReadRows(MemoryLayout(), |img.memories|, data[head..], arena) == Some((ms, k))
    requires ReadRows(CacheLayout(), |img.caches|, data[head + k..], arena) == Some((cs, l))
    requires MemoriesOf(ms) == img.memories && CachesOf(cs) == img.caches
    ensures ReadBody(data, arena) == Some(img)
  {
    hide GetAll;
    hide ReadRows;
    hide MemoriesOf;
    hide CachesOf;
    hide HeaderLayout;
    hide MemoryLayout;
    hide CacheLayout;
  }

  lemma ImageRows(img: Image)
    requires ImageFits(img)
    ensures AllFit(Header(img))
    ensures RowsFit(MemoryLayout(), MemoryRows(img.memories)) && MemoriesOf(MemoryRows(img.memories)) == img.memories
    ensures RowsFit(CacheLayout(), CacheRows(img.caches)) && CachesOf(CacheRows(img.caches)) == img.caches
  {
    hide MemoryFits;
    hide CacheFits;
    hide RowsFit;
    hide AllFit;
    hide MemoriesOf;
    hide CachesOf;
    hide MemoryRows;
    hide CacheRows;
    MemoriesThere(img.memories);
    CachesThere(img.caches);
  }

  lemma BodyMeans(img: Image)
    ensures var ms, cs := MemoryRows(img.memories), CacheRows(img.caches);
      Body(img) == PutAll(Header(img)) + (RowsBytes(ms, 0) + RowsBytes(cs, |Arena(ms)|)) && ImageArena(img) == Arena(ms) + Arena(cs)
  {
    hide Header;
    hide PutAll;
    hide RowsBytes;
    hide Arena;
    hide MemoryRows;
    hide CacheRows;
  }

  /** The body of a saved image is read back; more bytes may follow. */
  lemma BodyThere(img: Image, rest: seq<Byte>)
    requires ImageFits(img) && |ImageArena(img)| < TWO_64
    ensures ReadBody(Body(img) + rest, ImageArena(img)) == Some(img)
  {
    hide *;
    ImageRows(img);
    BodyMeans(img);
    var ms, cs := MemoryRows(img.memories), CacheRows(img.caches);
    var head, a, b := PutAll(Header(img)), RowsBytes(ms, 0), RowsBytes(cs, |Arena(ms)|);
    ArenaStored(ms, cs);
    BodyParts(head, a, b, rest);
    HeaderThere(img, a + (b + rest));
    RowsThere(MemoryLayout(), ms, 0, ImageArena(img), b + rest);
    RowsThere(CacheLayout(), cs, |Arena(ms)|, ImageArena(img), rest);
    BodyIs(Body(img) + rest, ImageArena(img), img, |head|, ms, |a|, cs, |b|);
  }

  lemma BodyParts(head: seq<Byte>, a: seq<Byte>, b: seq<Byte>, rest: seq<Byte>)
    ensures var data := head + (a + b) + rest;
      data == head + (a + (b + rest)) && data[|head|..] == a + (b + rest) && data[|head| + |a|..] == b + rest
  {
  }

  /** Loading what was saved restores every row, the counters and the dimension. */
  lemma SavedComesBack(img: Image)
    requires ImageFits(img) && |ImageArena(img)| < TWO_64
    ensures ReadImage(RecordsFile(img), VectorsFile(img)) == Some(img)
  {
    ImageArenaBits(img);
    ArenaThere(ImageArena(img));
    hide ImageFits;
    hide ImageArena;
    hide Body;
    hide ReadBody;
    hide ReadArena;
    BodyThere(img, []);
    assert Body(img) + [] == Body(img);
    assert RecordsFile(img)[..8] == RECORDS_MAGIC && RecordsFile(img)[8..] == Body(img);
  }

  lemma ReadArenaBits(file: seq<Byte>)
    requires ReadArena(file).Some?
    ensures FloatBits(ReadArena(file).value)
  {
    hide Number;
    hide Floats;
    hide ReadFloats;
    FloatsBack(file[12..], (|file| - 12) / 4);
  }

  lemma ReadRowsBits(layout: seq<Kind>, n: nat, data: seq<Byte>, arena: seq<nat>)
    requires FloatBits(arena) && ReadRows(layout, n, data, arena).Some?
    ensures forall i | 0 <= i < n :: FloatBits(ReadRows(layout, n, data, arena).value.0[i].embedding)
  {
    OutsideTheArenaIsRefused(layout, n, data, arena);
    hide ReadRows;
    hide RawRows;
    forall i | 0 <= i < n ensures FloatBits(ReadRows(layout, n, data, arena).value.0[i].embedding) {
      var fs := RawRows(layout, n, data).value[i];
      SliceBits(arena, NumOf(fs[|fs| - 2]), NumOf(fs[|fs| - 1]));
    }
  }

  lemma SliceBits(arena: seq<nat>, offset: nat, count: nat)
    requires FloatBits(arena) && offset + count <= |arena|
    ensures FloatBits(arena[offset..offset + count])
  {
  }

  lemma MemoriesBack(rows: seq<Row>)
    requires RowsFit(MemoryLayout(), rows) && forall i | 0 <= i < |rows| :: FloatBits(rows[i].embedding)
    ensures var rs := MemoriesOf(rows);
      forall i | 0 <= i < |rs| :: MemoryFits(rs[i]) && FloatBits(rs[i].embedding)
  {
    hide FloatBits;
    hide RowFits;
    hide MemoryFits;
    forall i | 0 <= i < |rows| ensures MemoryFits(MemoryOf(rows[i])) && FloatBits(MemoryOf(rows[i]).embedding) {
      assert RowFits(MemoryLayout(), rows[i]);
      MemoryBack(rows[i]);
      EmbeddingKept(rows[i]);
    }
  }

  lemma EmbeddingKept(row: Row)
    ensures RowFits(MemoryLayout(), row) ==> MemoryOf(row).embedding == row.embedding
    ensures RowFits(CacheLayout(), row) ==> CacheOf(row).embedding == row.embedding
  {
    hide AllFit;
  }

  lemma CachesBack(rows: seq<Row>)
    requires RowsFit(CacheLayout(), rows) && forall i | 0 <= i < |rows| :: FloatBits(rows[i].embedding)
    ensures var es := CachesOf(rows);
      forall i | 0 <= i < |es| :: CacheFits(es[i]) && FloatBits(es[i].embedding)
  {
    hide FloatBits;
    hide RowFits;
    hide CacheFits;
    forall i | 0 <= i < |rows| ensures CacheFits(CacheOf(rows[i])) && FloatBits(CacheOf(rows[i]).embedding) {
      assert RowFits(CacheLayout(), rows[i]);
      CacheBack(rows[i]);
      EmbeddingKept(rows[i]);
    }
  }

  /** Whatever is loaded is within the limits. */
  lemma LoadedFits(records: seq<Byte>, vectors: seq<Byte>)
    requires ReadImage(records, vectors).Some?
    ensures ImageFits(ReadImage(records, vectors).value)
  {
    hide GetAll;
    hide ReadRows;
    hide ReadArena;
    hide MemoryFits;
    hide CacheFits;
    hide RowsFit;
    hide FloatBits;
    hide MemoriesOf;
    hide CachesOf;
    hide MemoryLayout;
    hide CacheLayout;
    ReadArenaBits(vectors);
    var arena, data := ReadArena(vectors).value, records[8..];
    GetAllIsPutAll(HeaderLayout(), data);
    var fs, head := GetAll(HeaderLayout(), data).value.0, GetAll(HeaderLayout(), data).value.1;
    forall i | 0 <= i < 6 ensures KindOf(fs[i]) == HeaderLayout()[i] { assert Kinds(fs)[i] == HeaderLayout()[i]; }
    var ms := ReadRows(MemoryLayout(), NumOf(fs[4]), data[head..], arena).value;
    var cs := ReadRows(CacheLayout(), NumOf(fs[5]), data[head + ms.1..], arena).value;
    RowsBack(MemoryLayout(), NumOf(fs[4]), data[head..], arena);
    ReadRowsBits(MemoryLayout(), NumOf(fs[4]), data[head..], arena);
    MemoriesBack(ms.0);
    RowsBack(CacheLayout(), NumOf(fs[5]), data[head + ms.1..], arena);
    ReadRowsBits(CacheLayout(), NumOf(fs[5]), data[head + ms.1..], arena);
    CachesBack(cs.0);
    assert Header(ReadImage(records, vectors).value) == fs;
  }

  /** A snapshot restores what was saved exactly when everything was within the limits. */
  lemma ComesBackExactlyWhen(img: Image)
    requires |ImageArena(img)| < TWO_64
    ensures ReadImage(RecordsFile(img), VectorsFile(img)) == Some(img) <==> ImageFits(img)
  {
    hide *;
    if ImageFits(img) {
      SavedComesBack(img);
    }
    if ReadImage(RecordsFile(img), VectorsFile(img)) == Some(img) {
      LoadedFits(RecordsFile(img), VectorsFile(img));
    }
  }

  /** A string over the limit is written, and nothing is read where it stands. */
  lemma LongTextIsRefused(s: string, rest: seq<Byte>)
    requires INT32_MAX < |s| < TWO_64
    ensures Get(KText, Put(Text(s)) + rest).None?
  {
    Widths();
    hide Pow;
    hide Little;
    hide Number;
    NumberThere(|s|, 8, FromString(s) + rest);
    Joined(Little(|s|, 8), FromString(s), rest);
    hide FromString;
    hide ToString;
  }

  lemma LongRowIsRefused(layout: seq<Kind>, row: Row, offset: nat, arena: seq<nat>, rest: seq<Byte>)
    requires layout != [] && layout[0] == KText && row.fields != [] && row.fields[0].Text? && INT32_MAX < |row.fields[0].s| < TWO_64
    ensures ReadRow(layout, PutAll(RowFields(row, offset)) + rest, arena).None?
  {
    var fs := RowFields(row, offset);
    var more := PutAll(fs[1..]) + rest;
    LongTextIsRefused(row.fields[0].s, more);
    Joined(Put(fs[0]), PutAll(fs[1..]), rest);
    assert RowLayout(layout)[0] == KText;
    hide Get;
    hide Put;
  }

  /** A memory whose id is over the limit is saved, and the snapshot cannot be loaded at all. */
  lemma LongIdCannotBeLoaded(img: Image)
    requires img.memories != [] && AllFit(Header(img)) && INT32_MAX < |img.memories[0].memoryId| < TWO_64
    ensures ReadImage(RecordsFile(img), VectorsFile(img)).None?
  {
    hide AllFit;
    hide GetAll;
    hide PutAll;
    hide ReadArena;
    hide ReadRow;
    hide RowFields;
    hide Arena;
    var ms, cs := MemoryRows(img.memories), CacheRows(img.caches);
    var a, b := RowsBytes(ms, 0), RowsBytes(cs, |Arena(ms)|);
    var head := PutAll(Header(img));
    HeaderThere(img, a + b);
    assert RecordsFile(img)[8..] == Body(img);
    assert Body(img)[|head|..] == a + b;
    var first, others := PutAll(RowFields(ms[0], 0)), RowsBytes(ms[1..], |ms[0].embedding|);
    assert a == first + others;
    Joined(first, others, b);
    forall arena: seq<nat> ensures ReadRow(MemoryLayout(), a + b, arena).None? {
      LongRowIsRefused(MemoryLayout(), ms[0], 0, arena, others + b);
    }
    hide RowsBytes;
    hide MemoryRows;
    hide CacheRows;
    hide MemoryOf;
  }
}
