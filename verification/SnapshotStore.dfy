/**
  Saving the store to snapshot files and loading it from them.
 */
module SnapshotStore {
  import opened Vectors
  import opened Records
  import opened Bytes
  import opened Fields
  import opened Snapshot
  import opened StoreRows
  import opened StoreSpec
  import opened MemoryStore

  // ---------------------------------------------------------------------
  // Writing the files.
  // ---------------------------------------------------------------------

  lemma {:induction false} FloatsJoin(a: seq<nat>, b: seq<nat>)
    ensures Floats(a + b) == Floats(a) + Floats(b)
  {
    hide Little;
    if a == [] {
      assert a + b == b;
    } else {
      FloatsJoin(a[1..], b);
      assert (a + b)[1..] == a[1..] + b;
      Joined(Little(a[0], 4), Floats(a[1..]), Floats(b));
    }
  }

  lemma RowsLeft(rows: seq<Row>, i: nat, records: seq<Byte>, vectors: seq<Byte>, offset: nat)
    requires i < |rows|
    ensures var n := offset + |rows[i].embedding|;
      records + RowsBytes(rows[i..], offset) == (records + PutAll(RowFields(rows[i], offset))) + RowsBytes(rows[i + 1..], n)
    ensures vectors + Floats(Arena(rows[i..])) == (vectors + Floats(rows[i].embedding)) + Floats(Arena(rows[i + 1..]))
    ensures |Arena(rows[i..])| == |rows[i].embedding| + |Arena(rows[i + 1..])|
  {
    hide PutAll;
    hide RowFields;
    hide Floats;
    assert rows[i..][1..] == rows[i + 1..];
    Joined(records, PutAll(RowFields(rows[i], offset)), RowsBytes(rows[i + 1..], offset + |rows[i].embedding|));
    FloatsJoin(rows[i].embedding, Arena(rows[i + 1..]));
    Joined(vectors, Floats(rows[i].embedding), Floats(Arena(rows[i + 1..])));
  }

  lemma NoRowsLeft(offset: nat)
    ensures RowsBytes([], offset) == [] && Arena([]) == [] && Floats(Arena([])) == []
  {
  }

  /** Appends rows to the record stream and their embeddings to the arena. */
  method WriteRows(rows: seq<Row>, records: seq<Byte>, vectors: seq<Byte>, offset: nat)
      returns (moreRecords: seq<Byte>, moreVectors: seq<Byte>, next: nat)
    ensures moreRecords == records + RowsBytes(rows, offset)
    ensures moreVectors == vectors + Floats(Arena(rows))
    ensures next == offset + |Arena(rows)|
  {
    hide *;
    moreRecords, moreVectors, next := records, vectors, offset;
    assert rows[0..] == rows;
    for i := 0 to |rows|
      invariant moreRecords + RowsBytes(rows[i..], next) == records + RowsBytes(rows, offset)
      invariant moreVectors + Floats(Arena(rows[i..])) == vectors + Floats(Arena(rows))
      invariant next + |Arena(rows[i..])| == offset + |Arena(rows)|
    {
      RowsLeft(rows, i, moreRecords, moreVectors, next);
      var bytes := WriteFields(RowFields(rows[i], next));
      moreVectors := WriteFloats(moreVectors, rows[i].embedding);
      moreRecords := moreRecords + bytes;
      next := next + |rows[i].embedding|;
    }
    NoRowsLeft(next);
    assert rows[|rows|..] == [];
    assert moreRecords + [] == moreRecords && moreVectors + [] == moreVectors;
  }

  lemma FilesAre(img: Image, header: seq<Byte>)
    requires header == RECORDS_MAGIC + PutAll(Header(img))
    ensures var ms, cs := MemoryRows(img.memories), CacheRows(img.caches);
      && RecordsFile(img) == (header + RowsBytes(ms, 0)) + RowsBytes(cs, |Arena(ms)|)
      && VectorsFile(img) == ((VECTORS_MAGIC + Little(VERSION, 4)) + Floats(Arena(ms))) + Floats(Arena(cs))
  {
    hide PutAll;
    hide RowsBytes;
    hide Floats;
    hide Arena;
    hide MemoryRows;
    hide CacheRows;
    hide Header;
    hide Little;
    var ms, cs := MemoryRows(img.memories), CacheRows(img.caches);
    FloatsJoin(Arena(ms), Arena(cs));
    FourJoined(RECORDS_MAGIC, PutAll(Header(img)), RowsBytes(ms, 0), RowsBytes(cs, |Arena(ms)|));
    FourJoined(VECTORS_MAGIC, Little(VERSION, 4), Floats(Arena(ms)), Floats(Arena(cs)));
  }

  lemma FourJoined(a: seq<Byte>, b: seq<Byte>, c: seq<Byte>, d: seq<Byte>)
    ensures a + (b + (c + d)) == ((a + b) + c) + d
  {
  }

  method WriteFiles(img: Image) returns (records: seq<Byte>, vectors: seq<Byte>)
    ensures records == RecordsFile(img) && vectors == VectorsFile(img)
  {
    hide *;
    var header := WriteFields(Header(img));
    records := RECORDS_MAGIC + header;
    FilesAre(img, records);
    vectors := WriteLittle(VECTORS_MAGIC, VERSION, 4);
    var offset;
    records, vectors, offset := WriteRows(MemoryRows(img.memories), records, vectors, 0);
    records, vectors, offset := WriteRows(CacheRows(img.caches), records, vectors, offset);
  }

  // ---------------------------------------------------------------------
  // Reading them.
  // ---------------------------------------------------------------------

  method LoadArena(file: seq<Byte>) returns (arena: Option<seq<nat>>)
    ensures arena == ReadArena(file)
  {
    hide Number;
    hide ReadFloats;
    if |file| < 12 || file[..8] != VECTORS_MAGIC { return None; }
    var reader := new Reader(file);
    reader.pos := 8;
    var version := reader.ReadLittle(4);
    if version.value != VERSION || (|file| - 12) % 4 != 0 { return None; }
    var floats := reader.ReadFloatRun((|file| - 12) / 4);
    assert file[12..|file|] == file[12..];
    return Some(floats);
  }

  method LoadRow(reader: Reader, layout: seq<Kind>, arena: seq<nat>) returns (row: Option<Row>)
    requires reader.Valid()
    modifies reader`pos
    ensures reader.Valid() && reader.pos >= old(reader.pos)
    ensures var r := ReadRow(layout, reader.data[old(reader.pos)..], arena);
      && (row.Some? <==> r.Some?)
      && (row.Some? ==> row.value == r.value.0 && reader.pos == old(reader.pos) + r.value.1)
  {
    hide GetAll;
    hide RowOf;
    hide Inside;
    var fs := reader.ReadFields(RowLayout(layout));
    if fs.None? || !Inside(fs.value, arena) { return None; }
    return Some(RowOf(fs.value, arena));
  }

  method LoadRows(reader: Reader, layout: seq<Kind>, n: nat, arena: seq<nat>) returns (rows: Option<seq<Row>>)
    requires reader.Valid()
    modifies reader`pos
    ensures reader.Valid() && reader.pos >= old(reader.pos)
    ensures var r := ReadRows(layout, n, reader.data[old(reader.pos)..], arena);
      && (rows.Some? <==> r.Some?)
      && (rows.Some? ==> rows.value == r.value.0 && reader.pos == old(reader.pos) + r.value.1)
  {
    hide *;
    var got: seq<Row> := [];
    ghost var start := reader.pos;
    StartOk(reader);
    NoRowYet(layout, n, reader.data, arena, start);
    for i := 0 to n
      invariant reader.Valid() && start <= reader.pos <= |reader.data|
      invariant RowsUpTo(layout, n, reader.data, arena, start, i, reader.pos, got)
    {
      ghost var before := reader.pos;
      var row := LoadRow(reader, layout, arena);
      if row.None? {
        NoMoreRows(layout, n, reader.data, arena, start, i, before, got);
        return None;
      }
      StartOk(reader);
      OneMoreRow(layout, n, reader.data, arena, start, i, before, got, row.value, reader.pos - before);
      got := got + [row.value];
    }
    AllRows(layout, n, reader.data, arena, start, reader.pos, got);
    return Some(got);
  }

  lemma StartOk(reader: Reader)
    requires reader.Valid()
    ensures reader.pos <= |reader.data|
  {
  }

  /** Reading n rows from start gives those got so far, then what reading on gives. */
  ghost predicate RowsUpTo(layout: seq<Kind>, n: nat, data: seq<Byte>, arena: seq<nat>, start: nat, i: nat, pos: nat, got: seq<Row>)
    requires i <= n && start <= pos <= |data|
  {
    var whole, rest := ReadRows(layout, n, data[start..], arena), ReadRows(layout, n - i, data[pos..], arena);
    if rest.None? then whole.None? else whole == Some((got + rest.value.0, pos - start + rest.value.1))
  }

  lemma NoRowYet(layout: seq<Kind>, n: nat, data: seq<Byte>, arena: seq<nat>, start: nat)
    requires start <= |data|
    ensures RowsUpTo(layout, n, data, arena, start, 0, start, [])
  {
    hide ReadRows;
    var whole := ReadRows(layout, n, data[start..], arena);
    if whole.Some? { assert [] + whole.value.0 == whole.value.0; }
  }

  lemma OneMoreRow(layout: seq<Kind>, n: nat, data: seq<Byte>, arena: seq<nat>, start: nat, i: nat, pos: nat, got: seq<Row>, row: Row, k: nat)
    requires i < n && start <= pos <= pos + k <= |data| && RowsUpTo(layout, n, data, arena, start, i, pos, got)
    requires ReadRow(layout, data[pos..], arena) == Some((row, k))
    ensures RowsUpTo(layout, n, data, arena, start, i + 1, pos + k, got + [row])
  {
    hide ReadRow;
    hide ReadRows;
    assert data[pos..][k..] == data[pos + k..];
    ReadRowsNext(layout, n - i, data[pos..], arena, row, k);
    var rest := ReadRows(layout, n - i - 1, data[pos + k..], arena);
    if rest.Some? { assert got + ([row] + rest.value.0) == (got + [row]) + rest.value.0; }
  }

  lemma NoMoreRows(layout: seq<Kind>, n: nat, data: seq<Byte>, arena: seq<nat>, start: nat, i: nat, pos: nat, got: seq<Row>)
    requires i < n && start <= pos <= |data| && RowsUpTo(layout, n, data, arena, start, i, pos, got)
    requires ReadRow(layout, data[pos..], arena).None?
    ensures ReadRows(layout, n, data[start..], arena).None?
  {
    hide ReadRow;
    assert ReadRows(layout, n - i, data[pos..], arena).None?;
  }

  lemma AllRows(layout: seq<Kind>, n: nat, data: seq<Byte>, arena: seq<nat>, start: nat, pos: nat, got: seq<Row>)
    requires start <= pos <= |data| && RowsUpTo(layout, n, data, arena, start, n, pos, got)
    ensures ReadRows(layout, n, data[start..], arena) == Some((got, pos - start))
  {
    assert ReadRows(layout, 0, data[pos..], arena) == Some(([], 0));
    hide ReadRows;
    assert got + [] == got;
  }

  method ReadFiles(records: seq<Byte>, vectors: seq<Byte>) returns (img: Option<Image>)
    ensures img == ReadImage(records, vectors)
  {
    hide ReadArena;
    hide ReadBody;
    var arena := LoadArena(vectors);
    if |records| < 8 || records[..8] != RECORDS_MAGIC || arena.None? { return None; }
    img := LoadBody(records[8..], arena.value);
  }

  method LoadBody(data: seq<Byte>, arena: seq<nat>) returns (img: Option<Image>)
    ensures img == ReadBody(data, arena)
  {
    hide GetAll;
    hide ReadRows;
    hide HeaderLayout;
    hide MemoryLayout;
    hide CacheLayout;
    hide MemoriesOf;
    hide CachesOf;
    var reader := new Reader(data);
    assert data[0..] == data;
    var head := reader.ReadFields(HeaderLayout());
    if head.None? || NumOf(head.value[0]) != VERSION { return None; }
    var fs := head.value;
    var ms := LoadRows(reader, MemoryLayout(), NumOf(fs[4]), arena);
    if ms.None? { return None; }
    var cs := LoadRows(reader, CacheLayout(), NumOf(fs[5]), arena);
    if cs.None? { return None; }
    return Some(Image(NumOf(fs[1]), NumOf(fs[2]), NumOf(fs[3]), MemoriesOf(ms.value), CachesOf(cs.value)));
  }

  // ---------------------------------------------------------------------
  // The store.
  // ---------------------------------------------------------------------

  /** How floats and doubles are kept as bit patterns. */
  datatype Bits = Bits(ofFloat: Float -> nat, toFloat: nat -> Float, ofDouble: real -> nat, toDouble: nat -> real)

  function Frozen(b: Bits, v: Vec): (es: seq<nat>)
    ensures |es| == |v| && forall i | 0 <= i < |v| :: es[i] == b.ofFloat(v[i])
  {
    seq(|v|, i requires 0 <= i < |v| => b.ofFloat(v[i]))
  }

  function Thawed(b: Bits, es: seq<nat>): (v: Vec)
    ensures |v| == |es| && forall i | 0 <= i < |es| :: v[i] == b.toFloat(es[i])
  {
    seq(|es|, i requires 0 <= i < |es| => b.toFloat(es[i]))
  }

  function FrozenMemory(b: Bits, m: Memory): Record {
    MemoryRecord(m.memoryId, m.tenantId, m.namespaceId, m.userId, m.sessionId, m.agentId, m.kind, m.content,
      m.metadataJson, Frozen(b, m.embedding), m.tokenCount, b.ofDouble(m.importance), m.createdAt, m.lastAccessed,
      m.expiresAt, m.pinned, m.accessCount)
  }

  function ThawedMemory(b: Bits, r: Record): Memory {
    MemoryRecord(r.memoryId, r.tenantId, r.namespaceId, r.userId, r.sessionId, r.agentId, r.kind, r.content,
      r.metadataJson, Thawed(b, r.embedding), r.tokenCount, b.toDouble(r.importance), r.createdAt, r.lastAccessed,
      r.expiresAt, r.pinned, r.accessCount)
  }

  function FrozenCache(b: Bits, c: Cache): Entry {
    CacheEntry(c.cacheId, c.tenantId, c.namespaceId, c.prompt, c.response, c.metadataJson, Frozen(b, c.embedding),
      c.tokenCount, c.createdAt, c.lastAccessed, c.expiresAt, c.accessCount)
  }

  function ThawedCache(b: Bits, e: Entry): Cache {
    CacheEntry(e.cacheId, e.tenantId, e.namespaceId, e.prompt, e.response, e.metadataJson, Thawed(b, e.embedding),
      e.tokenCount, e.createdAt, e.lastAccessed, e.expiresAt, e.accessCount)
  }

  function ImageOf(b: Bits, c: Contents): (img: Image)
    ensures |img.memories| == |c.memories| && |img.caches| == |c.caches|
  {
    Image(c.dim, c.nextMemoryId, c.nextCacheId,
      seq(|c.memories|, i requires 0 <= i < |c.memories| => FrozenMemory(b, c.memories[i])),
      seq(|c.caches|, i requires 0 <= i < |c.caches| => FrozenCache(b, c.caches[i])))
  }

  function ContentsOf(b: Bits, img: Image): (c: Contents)
    ensures |img.memories| == |c.memories| && |img.caches| == |c.caches|
  {
    Contents(img.dim, img.nextMemoryId, img.nextCacheId,
      seq(|img.memories|, i requires 0 <= i < |img.memories| => ThawedMemory(b, img.memories[i])),
      seq(|img.caches|, i requires 0 <= i < |img.caches| => ThawedCache(b, img.caches[i])))
  }

  predicate FloatsKept(b: Bits, v: Vec) {
    forall i | 0 <= i < |v| :: b.toFloat(b.ofFloat(v[i])) == v[i]
  }

  /** The values of the contents survive as bit patterns. */
  predicate Kept(b: Bits, c: Contents) {
    && (forall i | 0 <= i < |c.memories| ::
          FloatsKept(b, c.memories[i].embedding) && b.toDouble(b.ofDouble(c.memories[i].importance)) == c.memories[i].importance)
    && (forall i | 0 <= i < |c.caches| :: FloatsKept(b, c.caches[i].embedding))
  }

  lemma ThawsBack(b: Bits, c: Contents)
    requires Kept(b, c)
    ensures ContentsOf(b, ImageOf(b, c)) == c
  {
    var back := ContentsOf(b, ImageOf(b, c));
    forall i | 0 <= i < |c.memories| ensures back.memories[i] == c.memories[i] {
      assert Thawed(b, Frozen(b, c.memories[i].embedding)) == c.memories[i].embedding;
    }
    forall i | 0 <= i < |c.caches| ensures back.caches[i] == c.caches[i] {
      assert Thawed(b, Frozen(b, c.caches[i].embedding)) == c.caches[i].embedding;
    }
    assert back.memories == c.memories && back.caches == c.caches;
  }

  /** What the store would save. */
  function Held(store: AgentMemoryStore): Contents
    reads store
  {
    Contents(store.embeddingDim, store.nextMemoryId, store.nextCacheId, store.memories, store.caches)
  }

  /** A valid store can be loaded back. */
  lemma HeldIsLoadable(store: AgentMemoryStore)
    requires store.Valid()
    ensures Loadable(Held(store))
  {
    hide AgentMemoryStore.Valid;
    store.DistinctIds();
    LoadableMeans(Held(store));
  }

  method Save(store: AgentMemoryStore, b: Bits) returns (records: seq<Byte>, vectors: seq<Byte>)
    ensures records == RecordsFile(ImageOf(b, Held(store))) && vectors == VectorsFile(ImageOf(b, Held(store)))
  {
    hide *;
    records, vectors := WriteFiles(ImageOf(b, Contents(store.embeddingDim, store.nextMemoryId, store.nextCacheId, store.memories, store.caches)));
    HeldIs(store);
  }

  lemma HeldIs(store: AgentMemoryStore)
    ensures Held(store) == Contents(store.embeddingDim, store.nextMemoryId, store.nextCacheId, store.memories, store.caches)
  {
  }

  /** Loads the files into the store, or leaves the store as it is. */
  method Load(store: AgentMemoryStore, b: Bits, records: seq<Byte>, vectors: seq<Byte>) returns (ok: bool)
    requires store.Valid()
    modifies store
    ensures store.Valid()
    ensures ok <==> ReadImage(records, vectors).Some? && Loadable(ContentsOf(b, ReadImage(records, vectors).value))
    ensures ok ==> store.UnitsExact() && store.annDirty && Held(store) == ContentsOf(b, ReadImage(records, vectors).value)
    ensures !ok ==> unchanged(store)
  {
    hide *;
    var img := ReadFiles(records, vectors);
    if img.None? { return false; }
    ok := store.Load(ContentsOf(b, img.value));
    HeldIs(store);
  }

  /** Another store that loads what this one saved holds the same, with every index, counter and unit row rebuilt. */
  method SaveThenLoad(store: AgentMemoryStore, other: AgentMemoryStore, b: Bits) returns (ok: bool)
    requires store.Valid() && other.Valid() && store != other
    requires Kept(b, Held(store)) && ImageFits(ImageOf(b, Held(store))) && |ImageArena(ImageOf(b, Held(store)))| < TWO_64
    modifies other
    ensures ok && other.Valid() && other.UnitsExact() && other.annDirty
    ensures Held(other) == old(Held(store))
  {
    hide *;
    ghost var held := Held(store);
    var records, vectors := Save(store, b);
    SavedComesBack(ImageOf(b, held));
    ThawsBack(b, held);
    HeldIsLoadable(store);
    ok := Load(other, b, records, vectors);
  }
}
