/**
  The messages Agent Memory nodes send each other, as bytes.

  Floats and doubles travel as bit patterns, so records here hold naturals in
  their place.
 */
module Wire {
  import opened Vectors
  import opened Records
  import opened Bytes
  import opened Fields
  import Restore

  type Record = MemoryRecord<nat, nat>
  type Entry = CacheEntry<nat>
  type Query = MemoryQuery<nat>

  datatype Match = Match(record: Record, score: nat, similarity: nat)

  /** The part of the statistics older nodes do not send. */
  datatype Sizes = Sizes(annMemoryBytes: nat, annTombstones: nat, recordsBytes: nat, vectorsBytes: nat, totalBytes: nat)

  datatype Stats = Stats(
    memoryCount: nat, cacheCount: nat, embeddingDim: nat, evictedMemories: nat, evictedCaches: nat,
    annEnabled: bool, annIndexed: nat, annPartitions: nat, annBuckets: nat, annMaxBucket: nat,
    annRebuilds: nat, annLastRebuildMs: nat, annSearches: nat, annFallbacks: nat,
    snapshotLatency: nat, snapshotFailures: nat, tenantQuotas: nat, sizes: Sizes)

  datatype Message =
    | MemoryRow(record: Record)
    | MemorySearch(query: Query)
    | SearchResult(error: string, matches: seq<Match>)
    | GetRequest(memoryId: string, tenantId: string)
    | GetResult(found: bool, error: string, record: Record)
    | DeleteRequest(memoryId: string, tenantId: string)
    | CacheDelete(tenantId: string, namespaceId: string, prompt: string)
    | CacheRow(entry: Entry)
    | CacheSearch(tenantId: string, namespaceId: string, prompt: string, embedding: seq<nat>, threshold: nat, now: int)
    | CacheResult(hit: bool, exact: bool, score: nat, entry: Entry)
    | Outcome(ok: bool, id: string, error: string, evictions: seq<Restore.Event>)
    | StatsReport(stats: Stats)

  datatype MessageKind =
    | KMemoryRow | KMemorySearch | KSearchResult | KGetRequest | KGetResult | KDeleteRequest
    | KCacheDelete | KCacheRow | KCacheSearch | KCacheResult | KOutcome | KStatsReport

  function MessageKindOf(m: Message): MessageKind {
    match m
    case MemoryRow(_) => KMemoryRow
    case MemorySearch(_) => KMemorySearch
    case SearchResult(_, _) => KSearchResult
    case GetRequest(_, _) => KGetRequest
    case GetResult(_, _, _) => KGetResult
    case DeleteRequest(_, _) => KDeleteRequest
    case CacheDelete(_, _, _) => KCacheDelete
    case CacheRow(_) => KCacheRow
    case CacheSearch(_, _, _, _, _, _) => KCacheSearch
    case CacheResult(_, _, _, _) => KCacheResult
    case Outcome(_, _, _, _) => KOutcome
    case StatsReport(_) => KStatsReport
  }

  // ---------------------------------------------------------------------
  // Records and cache entries.
  // ---------------------------------------------------------------------

  function RecordFields(r: Record): (fs: seq<Field>)
    ensures |fs| == 17
  {
    [Str(r.memoryId), Str(r.tenantId), Str(r.namespaceId), Str(r.userId), Str(r.sessionId), Str(r.agentId),
     Str(r.kind), Str(r.content), Str(r.metadataJson), Emb(r.embedding), IntField(r.tokenCount), U64(r.importance),
     IntField(r.createdAt), IntField(r.lastAccessed), IntField(r.expiresAt), FlagField(r.pinned), U64(r.accessCount)]
  }

  function RecordLayout(): (ks: seq<Kind>)
    ensures |ks| == 17
  {
    [KStr, KStr, KStr, KStr, KStr, KStr, KStr, KStr, KStr, KEmb, KU64, KU64, KU64, KU64, KU64, KU8, KU64]
  }

  function RecordOf(fs: seq<Field>): Record
    requires |fs| == 17
  {
    MemoryRecord(
      TextOf(fs[0]), TextOf(fs[1]), TextOf(fs[2]), TextOf(fs[3]), TextOf(fs[4]), TextOf(fs[5]),
      TextOf(fs[6]), TextOf(fs[7]), TextOf(fs[8]), FloatsOf(fs[9]), IntOf(fs[10]), NumOf(fs[11]),
      IntOf(fs[12]), IntOf(fs[13]), IntOf(fs[14]), Flag(fs[15]), NumOf(fs[16]))
  }

  predicate RecordFits(r: Record) {
    && AllFit(RecordFields(r))
    && Int64(r.tokenCount) && Int64(r.createdAt) && Int64(r.lastAccessed) && Int64(r.expiresAt)
  }

  lemma RecordThere(r: Record)
    requires RecordFits(r)
    ensures Kinds(RecordFields(r)) == RecordLayout() && RecordOf(RecordFields(r)) == r
  {
    hide AllFit;
    IntThere(r.tokenCount);
    IntThere(r.createdAt);
    IntThere(r.lastAccessed);
    IntThere(r.expiresAt);
    hide IntOf;
    hide IntField;
  }

  predicate RecordShaped(fs: seq<Field>) {
    && |fs| == 17
    && fs[0].Str? && fs[1].Str? && fs[2].Str? && fs[3].Str? && fs[4].Str? && fs[5].Str?
    && fs[6].Str? && fs[7].Str? && fs[8].Str? && fs[9].Emb? && fs[10].U64? && fs[11].U64?
    && fs[12].U64? && fs[13].U64? && fs[14].U64? && fs[15].U8? && fs[16].U64?
  }

  lemma LaidOutRecord(fs: seq<Field>)
    requires Kinds(fs) == RecordLayout()
    ensures RecordShaped(fs)
  {
    forall i | 0 <= i < 17 ensures KindOf(fs[i]) == RecordLayout()[i] { assert Kinds(fs)[i] == RecordLayout()[i]; }
    hide Kinds;
  }

  lemma RecordFieldsBack(fs: seq<Field>)
    requires RecordShaped(fs)
    requires Fits(fs[10]) && Fits(fs[12]) && Fits(fs[13]) && Fits(fs[14])
    ensures var r := RecordOf(fs); Int64(r.tokenCount) && Int64(r.createdAt) && Int64(r.lastAccessed) && Int64(r.expiresAt)
    ensures RecordFields(RecordOf(fs)) == fs[15 := FlagField(Flag(fs[15]))]
  {
    IntBack(fs[10]);
    IntBack(fs[12]);
    IntBack(fs[13]);
    IntBack(fs[14]);
    hide IntOf;
    hide IntField;
    hide Fits;
    hide Int64;
  }

  lemma RecordBack(fs: seq<Field>)
    requires Kinds(fs) == RecordLayout() && AllFit(fs)
    ensures RecordFits(RecordOf(fs))
    ensures RecordFields(RecordOf(fs)) == fs[15 := FlagField(Flag(fs[15]))]
  {
    hide Fits;
    LaidOutRecord(fs);
    RecordFieldsBack(fs);
    FlagFits(Flag(fs[15]));
    hide RecordOf;
    hide RecordFields;
    hide FlagField;
    hide Int64;
  }

  lemma FlagFits(b: bool)
    ensures Fits(FlagField(b))
  {
  }

  function EncodedRecord(r: Record): seq<Byte> {
    PutAll(RecordFields(r))
  }

  function DecodedRecord(data: seq<Byte>): Option<Record> {
    var got := GetAll(RecordLayout(), data);
    if got.None? || got.value.1 != |data| then None else Some(RecordOf(got.value.0))
  }

  function EntryFields(e: Entry): (fs: seq<Field>)
    ensures |fs| == 12
  {
    [Str(e.cacheId), Str(e.tenantId), Str(e.namespaceId), Str(e.prompt), Str(e.response), Str(e.metadataJson),
     Emb(e.embedding), IntField(e.tokenCount), IntField(e.createdAt), IntField(e.lastAccessed), IntField(e.expiresAt),
     U64(e.accessCount)]
  }

  function EntryLayout(): (ks: seq<Kind>)
    ensures |ks| == 12
  {
    [KStr, KStr, KStr, KStr, KStr, KStr, KEmb, KU64, KU64, KU64, KU64, KU64]
  }

  function EntryOf(fs: seq<Field>): Entry
    requires |fs| == 12
  {
    CacheEntry(
      TextOf(fs[0]), TextOf(fs[1]), TextOf(fs[2]), TextOf(fs[3]), TextOf(fs[4]), TextOf(fs[5]),
      FloatsOf(fs[6]), IntOf(fs[7]), IntOf(fs[8]), IntOf(fs[9]), IntOf(fs[10]), NumOf(fs[11]))
  }

  predicate EntryFits(e: Entry) {
    && AllFit(EntryFields(e))
    && Int64(e.tokenCount) && Int64(e.createdAt) && Int64(e.lastAccessed) && Int64(e.expiresAt)
  }

  lemma EntryThere(e: Entry)
    requires EntryFits(e)
    ensures Kinds(EntryFields(e)) == EntryLayout() && EntryOf(EntryFields(e)) == e
  {
    hide AllFit;
    IntThere(e.tokenCount);
    IntThere(e.createdAt);
    IntThere(e.lastAccessed);
    IntThere(e.expiresAt);
    hide IntOf;
    hide IntField;
  }

  lemma EntryBack(fs: seq<Field>)
    requires Kinds(fs) == EntryLayout() && AllFit(fs)
    ensures EntryFits(EntryOf(fs)) && EntryFields(EntryOf(fs)) == fs
  {
    IntBack(fs[7]);
    IntBack(fs[8]);
    IntBack(fs[9]);
    IntBack(fs[10]);
    hide IntOf;
    hide IntField;
  }

  function EncodedEntry(e: Entry): seq<Byte> {
    PutAll(EntryFields(e))
  }

  function DecodedEntry(data: seq<Byte>): Option<Entry> {
    var got := GetAll(EntryLayout(), data);
    if got.None? || got.value.1 != |data| then None else Some(EntryOf(got.value.0))
  }

  lemma RecordComesBack(r: Record)
    requires RecordFits(r)
    ensures DecodedRecord(EncodedRecord(r)) == Some(r)
  {
    RecordThere(r);
    var fs := RecordFields(r);
    GetAllUndoesPutAll(fs, []);
    assert PutAll(fs) + [] == PutAll(fs);
    hide GetAll;
    hide PutAll;
    hide AllFit;
    hide RecordFields;
    hide RecordOf;
    hide RecordLayout;
  }

  /** Decoded records can be sent on, and take as many bytes. */
  lemma RecordArrivedFits(data: seq<Byte>)
    requires DecodedRecord(data).Some?
    ensures var r := DecodedRecord(data).value; RecordFits(r) && |EncodedRecord(r)| == |data|
  {
    hide GetAll;
    hide AllFit;
    hide RecordFits;
    hide RecordFields;
    hide RecordOf;
    hide RecordLayout;
    var fs := GetAll(RecordLayout(), data).value.0;
    GetAllIsPutAll(RecordLayout(), data);
    assert data[..|data|] == data;
    RecordBack(fs);
    LayoutFlag();
    assert Kinds(fs)[15] == KindOf(fs[15]);
    PutAllUpdate(fs, 15, FlagField(Flag(fs[15])));
    hide PutAll;
  }

  lemma LayoutFlag()
    ensures RecordLayout()[15] == KU8
  {
  }

  lemma EntryComesBack(e: Entry)
    requires EntryFits(e)
    ensures DecodedEntry(EncodedEntry(e)) == Some(e)
  {
    EntryThere(e);
    var fs := EntryFields(e);
    GetAllUndoesPutAll(fs, []);
    assert PutAll(fs) + [] == PutAll(fs);
    hide GetAll;
    hide PutAll;
    hide AllFit;
    hide EntryFields;
    hide EntryOf;
    hide EntryLayout;
  }

  lemma EntryArrivedFits(data: seq<Byte>)
    requires DecodedEntry(data).Some?
    ensures EntryFits(DecodedEntry(data).value) && EncodedEntry(DecodedEntry(data).value) == data
  {
    hide GetAll;
    hide AllFit;
    hide EntryFits;
    hide EntryFields;
    hide EntryOf;
    hide EntryLayout;
    GetAllIsPutAll(EntryLayout(), data);
    assert data[..|data|] == data;
    EntryBack(GetAll(EntryLayout(), data).value.0);
    hide PutAll;
  }

  // ---------------------------------------------------------------------
  // Messages that are one list of fields.
  // ---------------------------------------------------------------------

  predicate Simple(kind: MessageKind) {
    kind != KSearchResult && kind != KStatsReport
  }

  function QueryFields(q: Query): seq<Field> {
    [Str(q.tenantId), Str(q.namespaceId), Str(q.userId), Str(q.sessionId), Str(q.agentId), Str(q.kind),
     Emb(q.embedding), U64(q.limit), IntField(q.now),
     FlagField(q.includeExpired), FlagField(q.forceScan), FlagField(q.updateAccess)]
  }

  function QueryLayout(): (ks: seq<Kind>)
    ensures |ks| == 12
  {
    [KStr, KStr, KStr, KStr, KStr, KStr, KEmb, KU64, KU64, KU8, KU8, KU8]
  }

  function QueryOf(fs: seq<Field>): Query
    requires |fs| == 12
  {
    MemoryQuery(
      TextOf(fs[0]), TextOf(fs[1]), TextOf(fs[2]), TextOf(fs[3]), TextOf(fs[4]), TextOf(fs[5]),
      FloatsOf(fs[6]), NumOf(fs[7]), IntOf(fs[8]), Flag(fs[9]), Flag(fs[10]), Flag(fs[11]))
  }

  function SimpleFields(m: Message): seq<Field> {
    match m
    case MemoryRow(r) => RecordFields(r)
    case MemorySearch(q) => QueryFields(q)
    case GetRequest(id, tenant) => [Str(id), Str(tenant)]
    case GetResult(found, error, r) => [FlagField(found), Str(error), Str(ToString(EncodedRecord(r)))]
    case DeleteRequest(id, tenant) => [Str(id), Str(tenant)]
    case CacheDelete(tenant, namespace, prompt) => [Str(tenant), Str(namespace), Str(prompt)]
    case CacheRow(e) => EntryFields(e)
    case CacheSearch(tenant, namespace, prompt, es, threshold, now) =>
      [Str(tenant), Str(namespace), Str(prompt), Emb(es), U64(threshold), IntField(now)]
    case CacheResult(hit, exact, score, e) =>
      [FlagField(hit), FlagField(exact), U64(score), Str(ToString(EncodedEntry(e)))]
    case Outcome(ok, id, error, _) => [FlagField(ok), Str(id), Str(error)]
    case SearchResult(_, _) => []
    case StatsReport(_) => []
  }

  function SimpleCount(kind: MessageKind): nat {
    match kind
    case KMemoryRow => 17
    case KMemorySearch | KCacheRow => 12
    case KCacheSearch => 6
    case KCacheResult => 4
    case KGetResult | KCacheDelete | KOutcome => 3
    case _ => 2
  }

  function SimpleLayout(kind: MessageKind): (ks: seq<Kind>)
    requires Simple(kind)
    ensures |ks| == SimpleCount(kind)
  {
    match kind
    case KMemoryRow => RecordLayout()
    case KMemorySearch => QueryLayout()
    case KGetRequest => [KStr, KStr]
    case KGetResult => [KU8, KStr, KStr]
    case KDeleteRequest => [KStr, KStr]
    case KCacheDelete => [KStr, KStr, KStr]
    case KCacheRow => EntryLayout()
    case KCacheSearch => [KStr, KStr, KStr, KEmb, KU64, KU64]
    case KCacheResult => [KU8, KU8, KU64, KStr]
    case KOutcome => [KU8, KStr, KStr]
  }

  /** Records and entries as they are before anything is read into them. */
  function BlankRecord(): Record {
    MemoryRecord("", "", "default", "", "", "", "memory", "", "{}", [], 0, 0, 0, 0, 0, false, 0)
  }

  function BlankEntry(): Entry {
    CacheEntry("", "", "default", "", "", "{}", [], 0, 0, 0, 0, 0)
  }

  function GetResultOf(fs: seq<Field>): (m: Option<Message>)
    requires |fs| == 3
    ensures m.Some? ==> m.value.GetResult?
  {
    if !Flag(fs[0]) then Some(GetResult(false, TextOf(fs[1]), BlankRecord()))
    else
      var r := DecodedRecord(FromString(TextOf(fs[2])));
      if r.None? then None else Some(GetResult(true, TextOf(fs[1]), r.value))
  }

  function CacheResultOf(fs: seq<Field>): (m: Option<Message>)
    requires |fs| == 4
    ensures m.Some? ==> m.value.CacheResult?
  {
    if !Flag(fs[0]) then Some(CacheResult(false, Flag(fs[1]), NumOf(fs[2]), BlankEntry()))
    else
      var e := DecodedEntry(FromString(TextOf(fs[3])));
      if e.None? then None else Some(CacheResult(true, Flag(fs[1]), NumOf(fs[2]), e.value))
  }

  /** The message with these fields; none when a record inside it is malformed. */
  function SimpleOf(kind: MessageKind, fs: seq<Field>): Option<Message>
    requires Simple(kind) && |fs| == SimpleCount(kind)
  {
    match kind
    case KMemoryRow => Some(MemoryRow(RecordOf(fs)))
    case KMemorySearch => Some(MemorySearch(QueryOf(fs)))
    case KGetRequest => Some(GetRequest(TextOf(fs[0]), TextOf(fs[1])))
    case KGetResult => GetResultOf(fs)
    case KDeleteRequest => Some(DeleteRequest(TextOf(fs[0]), TextOf(fs[1])))
    case KCacheDelete => Some(CacheDelete(TextOf(fs[0]), OrDefault(TextOf(fs[1])), TextOf(fs[2])))
    case KCacheRow => Some(CacheRow(EntryOf(fs)))
    case KCacheSearch =>
      Some(CacheSearch(TextOf(fs[0]), TextOf(fs[1]), TextOf(fs[2]), FloatsOf(fs[3]), NumOf(fs[4]), IntOf(fs[5])))
    case KCacheResult => CacheResultOf(fs)
    case KOutcome => Some(Outcome(Flag(fs[0]), TextOf(fs[1]), TextOf(fs[2]), []))
  }

  /** What the receiver of a message gets. */
  function Arrived(m: Message): Message {
    match m
    case GetResult(found, error, r) => if found then m else GetResult(false, error, BlankRecord())
    case CacheDelete(tenant, namespace, prompt) => CacheDelete(tenant, OrDefault(namespace), prompt)
    case CacheResult(hit, exact, score, e) => if hit then m else CacheResult(false, exact, score, BlankEntry())
    case Outcome(ok, id, error, _) => Outcome(ok, id, error, [])
    case _ => m
  }

  /** The numbers and lengths of a message are within the format's limits. */
  predicate SimpleFits(m: Message) {
    && AllFit(SimpleFields(m))
    && match m
       case MemoryRow(r) => RecordFits(r)
       case MemorySearch(q) => Int64(q.now)
       case GetResult(found, _, r) => found ==> RecordFits(r)
       case CacheRow(e) => EntryFits(e)
       case CacheSearch(_, _, _, _, _, now) => Int64(now)
       case CacheResult(hit, _, _, e) => hit ==> EntryFits(e)
       case _ => true
  }

  lemma QueryThere(q: Query)
    requires Int64(q.now)
    ensures Kinds(QueryFields(q)) == QueryLayout() && QueryOf(QueryFields(q)) == q
  {
    IntThere(q.now);
    hide IntOf;
    hide IntField;
  }

  lemma GetResultThere(found: bool, error: string, r: Record)
    requires found ==> RecordFits(r)
    ensures var m := GetResult(found, error, r);
      Kinds(SimpleFields(m)) == [KU8, KStr, KStr] && GetResultOf(SimpleFields(m)) == Some(Arrived(m))
  {
    hide RecordFits;
    hide EncodedRecord;
    hide DecodedRecord;
    hide ToString;
    hide FromString;
    StringBack(EncodedRecord(r));
    if found { RecordComesBack(r); }
  }

  lemma CacheResultThere(hit: bool, exact: bool, score: nat, e: Entry)
    requires hit ==> EntryFits(e)
    ensures var m := CacheResult(hit, exact, score, e);
      Kinds(SimpleFields(m)) == [KU8, KU8, KU64, KStr] && CacheResultOf(SimpleFields(m)) == Some(Arrived(m))
  {
    hide EntryFits;
    hide EncodedEntry;
    hide DecodedEntry;
    hide ToString;
    hide FromString;
    StringBack(EncodedEntry(e));
    if hit { EntryComesBack(e); }
  }

  lemma SimpleThere(m: Message)
    requires Simple(MessageKindOf(m)) && SimpleFits(m)
    ensures Kinds(SimpleFields(m)) == SimpleLayout(MessageKindOf(m))
    ensures SimpleOf(MessageKindOf(m), SimpleFields(m)) == Some(Arrived(m))
  {
    hide RecordFields;
    hide RecordOf;
    hide EntryFields;
    hide EntryOf;
    hide QueryFields;
    hide QueryOf;
    hide QueryLayout;
    hide RecordLayout;
    hide EntryLayout;
    hide AllFit;
    hide RecordFits;
    hide EntryFits;
    hide GetResultOf;
    hide CacheResultOf;
    hide EncodedRecord;
    hide EncodedEntry;
    match m {
      case MemoryRow(r) => RecordThere(r);
      case MemorySearch(q) => QueryThere(q);
      case GetResult(found, error, r) => GetResultThere(found, error, r);
      case CacheRow(e) => EntryThere(e);
      case CacheSearch(_, _, _, _, _, now) => IntThere(now);
      case CacheResult(hit, exact, score, e) => CacheResultThere(hit, exact, score, e);
      case _ =>
    }
  }

  lemma QueryBack(fs: seq<Field>)
    requires Kinds(fs) == QueryLayout() && AllFit(fs)
    ensures Int64(QueryOf(fs).now) && AllFit(QueryFields(QueryOf(fs)))
  {
    IntBack(fs[8]);
    hide IntOf;
    hide IntField;
    hide Int64;
    var q := QueryOf(fs);
    FlagFits(q.includeExpired);
    FlagFits(q.forceScan);
    FlagFits(q.updateAccess);
    hide FlagField;
    assert QueryFields(q) == fs[9 := FlagField(q.includeExpired)][10 := FlagField(q.forceScan)][11 := FlagField(q.updateAccess)];
    hide Fits;
    hide QueryOf;
    hide QueryFields;
  }

  predicate Tiny(f: Field) {
    match f
    case Str(s) => |s| <= 8
    case Text(_) => false
    case Emb(es) => es == []
    case _ => true
  }

  lemma TinyPut(f: Field)
    requires Tiny(f)
    ensures |Put(f)| <= 12
  {
    hide Little;
    hide FromString;
  }

  lemma TinyFits(fs: seq<Field>)
    requires |fs| <= 20 && forall i | 0 <= i < |fs| :: Tiny(fs[i])
    ensures Fits(Str(ToString(PutAll(fs))))
  {
    hide Put;
    hide PutAll;
    hide Tiny;
    forall i | 0 <= i < |fs| ensures |Put(fs[i])| <= 12 { TinyPut(fs[i]); }
    PutAllShort(fs, 12);
  }

  lemma BlankRecordFits()
    ensures Fits(Str(ToString(EncodedRecord(BlankRecord()))))
  {
    hide Put;
    hide PutAll;
    hide Fits;
    hide ToString;
    hide Unsigned;
    TinyFits(RecordFields(BlankRecord()));
  }

  lemma BlankEntryFits()
    ensures Fits(Str(ToString(EncodedEntry(BlankEntry()))))
  {
    hide Put;
    hide PutAll;
    hide Fits;
    hide ToString;
    hide Unsigned;
    TinyFits(EntryFields(BlankEntry()));
  }

  lemma GetResultBack(fs: seq<Field>)
    requires Kinds(fs) == [KU8, KStr, KStr] && AllFit(fs) && GetResultOf(fs).Some?
    ensures SimpleFits(GetResultOf(fs).value)
  {
    hide RecordFits;
    hide EncodedRecord;
    hide DecodedRecord;
    hide BlankRecord;
    var m := GetResultOf(fs).value;
    FlagFits(m.found);
    if m.found {
      RecordArrivedFits(FromString(TextOf(fs[2])));
    } else {
      BlankRecordFits();
    }
    hide FromString;
    hide ToString;
  }

  lemma CacheResultBack(fs: seq<Field>)
    requires Kinds(fs) == [KU8, KU8, KU64, KStr] && AllFit(fs) && CacheResultOf(fs).Some?
    ensures SimpleFits(CacheResultOf(fs).value)
  {
    hide EntryFits;
    hide EncodedEntry;
    hide DecodedEntry;
    hide BlankEntry;
    var m := CacheResultOf(fs).value;
    FlagFits(m.hit);
    FlagFits(m.exact);
    if m.hit {
      EntryArrivedFits(FromString(TextOf(fs[3])));
    } else {
      BlankEntryFits();
    }
    hide FromString;
    hide ToString;
  }

  lemma CacheSearchBack(fs: seq<Field>)
    requires Kinds(fs) == SimpleLayout(KCacheSearch) && AllFit(fs)
    ensures SimpleFits(SimpleOf(KCacheSearch, fs).value)
  {
    IntBack(fs[5]);
    hide IntOf;
    hide IntField;
    hide Int64;
    assert SimpleFields(SimpleOf(KCacheSearch, fs).value) == fs;
    hide Fits;
  }

  lemma RowBack(fs: seq<Field>)
    requires Kinds(fs) == RecordLayout() && AllFit(fs)
    ensures SimpleFits(MemoryRow(RecordOf(fs)))
  {
    RecordBack(fs);
    hide RecordFields;
    hide RecordOf;
    hide AllFit;
    hide Int64;
  }

  lemma CacheRowBack(fs: seq<Field>)
    requires Kinds(fs) == EntryLayout() && AllFit(fs)
    ensures SimpleFits(CacheRow(EntryOf(fs)))
  {
    EntryBack(fs);
    hide EntryFields;
    hide EntryOf;
    hide AllFit;
    hide Int64;
  }

  lemma TextsBack(kind: MessageKind, fs: seq<Field>)
    requires kind == KGetRequest || kind == KDeleteRequest || kind == KCacheDelete || kind == KOutcome
    requires Kinds(fs) == SimpleLayout(kind) && AllFit(fs)
    ensures SimpleFits(SimpleOf(kind, fs).value)
  {
    hide RecordFields;
    hide EntryFields;
    hide QueryFields;
    hide RecordLayout;
    hide EntryLayout;
    hide QueryLayout;
    hide RecordOf;
    hide EntryOf;
    hide QueryOf;
    var sent := SimpleFields(SimpleOf(kind, fs).value);
    if kind == KCacheDelete {
      assert sent == fs[1 := Str(OrDefault(TextOf(fs[1])))];
    } else if kind == KOutcome {
      assert sent == fs[0 := FlagField(Flag(fs[0]))];
      FlagFits(Flag(fs[0]));
      hide FlagField;
      hide Fits;
    } else {
      assert sent == fs;
      hide Fits;
    }
  }

  /** What arrives can be sent on, and arrives again unchanged. */
  lemma SimpleBack(kind: MessageKind, fs: seq<Field>)
    requires Simple(kind) && Kinds(fs) == SimpleLayout(kind) && AllFit(fs) && SimpleOf(kind, fs).Some?
    ensures var m := SimpleOf(kind, fs).value; MessageKindOf(m) == kind && SimpleFits(m) && Arrived(m) == m
  {
    hide RecordOf;
    hide EntryOf;
    hide QueryOf;
    hide QueryLayout;
    hide RecordLayout;
    hide EntryLayout;
    hide DecodedRecord;
    hide DecodedEntry;
    hide AllFit;
    hide SimpleFits;
    match kind {
      case KMemoryRow => RowBack(fs);
      case KMemorySearch => SearchBack(fs);
      case KGetResult => GetResultBack(fs);
      case KCacheRow => CacheRowBack(fs);
      case KCacheSearch => CacheSearchBack(fs);
      case KCacheResult => CacheResultBack(fs);
      case _ => TextsBack(kind, fs);
    }
  }

  lemma SearchBack(fs: seq<Field>)
    requires Kinds(fs) == QueryLayout() && AllFit(fs)
    ensures SimpleFits(MemorySearch(QueryOf(fs)))
  {
    QueryBack(fs);
    hide QueryFields;
    hide QueryOf;
    hide AllFit;
    hide Int64;
  }

  // ---------------------------------------------------------------------
  // Search results: a counted run of matches, each with a record inside.
  // ---------------------------------------------------------------------

  function MatchFields(x: Match): seq<Field> {
    [Str(ToString(EncodedRecord(x.record))), U64(x.score), U64(x.similarity)]
  }

  function MatchLayout(): (ks: seq<Kind>)
    ensures |ks| == 3
  {
    [KStr, KU64, KU64]
  }

  function MatchOf(fs: seq<Field>): Option<Match>
    requires |fs| == 3
  {
    var r := DecodedRecord(FromString(TextOf(fs[0])));
    if r.None? then None else Some(Match(r.value, NumOf(fs[1]), NumOf(fs[2])))
  }

  predicate MatchFits(x: Match) {
    AllFit(MatchFields(x)) && RecordFits(x.record)
  }

  predicate MatchesFit(xs: seq<Match>) {
    forall i | 0 <= i < |xs| :: MatchFits(xs[i])
  }

  function EncodedMatches(xs: seq<Match>): seq<Byte> {
    if xs == [] then [] else PutAll(MatchFields(xs[0])) + EncodedMatches(xs[1..])
  }

  function DecodedMatch(data: seq<Byte>): (r: Option<(Match, nat)>)
    ensures r.Some? ==> r.value.1 <= |data|
  {
    var got := GetAll(MatchLayout(), data);
    if got.None? then None
    else
      var x := MatchOf(got.value.0);
      if x.None? then None else Some((x.value, got.value.1))
  }

  function DecodedMatches(n: nat, data: seq<Byte>): (r: Option<(seq<Match>, nat)>)
    ensures r.Some? ==> r.value.1 <= |data| && |r.value.0| == n
  {
    if n == 0 then Some(([], 0))
    else
      var first := DecodedMatch(data);
      if first.None? then None
      else
        var rest := DecodedMatches(n - 1, data[first.value.1..]);
        if rest.None? then None else Some(([first.value.0] + rest.value.0, first.value.1 + rest.value.1))
  }

  lemma MatchThere(x: Match, rest: seq<Byte>)
    requires MatchFits(x)
    ensures DecodedMatch(PutAll(MatchFields(x)) + rest) == Some((x, |PutAll(MatchFields(x))|))
  {
    hide RecordFits;
    hide EncodedRecord;
    hide DecodedRecord;
    hide ToString;
    hide FromString;
    hide AllFit;
    hide PutAll;
    hide GetAll;
    StringBack(EncodedRecord(x.record));
    RecordComesBack(x.record);
    assert Kinds(MatchFields(x)) == MatchLayout();
    GetAllUndoesPutAll(MatchFields(x), rest);
  }

  lemma MatchBack(data: seq<Byte>)
    requires DecodedMatch(data).Some?
    ensures MatchFits(DecodedMatch(data).value.0)
  {
    hide RecordFits;
    hide EncodedRecord;
    hide DecodedRecord;
    hide PutAll;
    hide GetAll;
    GetAllIsPutAll(MatchLayout(), data);
    var fs := GetAll(MatchLayout(), data).value.0;
    assert Kinds(fs)[0] == KindOf(fs[0]) && Kinds(fs)[1] == KindOf(fs[1]) && Kinds(fs)[2] == KindOf(fs[2]);
    RecordArrivedFits(FromString(TextOf(fs[0])));
    hide FromString;
    hide ToString;
  }

  lemma MatchStable(a: seq<Byte>, b: seq<Byte>)
    requires DecodedMatch(a).Some? && a <= b
    ensures DecodedMatch(b) == DecodedMatch(a)
  {
    GetAllStable(MatchLayout(), a, b);
    hide GetAll;
    hide MatchOf;
    hide MatchLayout;
  }

  lemma DecodedMatchesNext(n: nat, data: seq<Byte>, x: Match, k: nat)
    requires n > 0 && k <= |data| && DecodedMatch(data) == Some((x, k))
    ensures var rest := DecodedMatches(n - 1, data[k..]);
      DecodedMatches(n, data) == if rest.None? then None else Some(([x] + rest.value.0, k + rest.value.1))
  {
    hide DecodedMatch;
  }

  lemma {:induction false} MatchesThere(xs: seq<Match>, rest: seq<Byte>)
    requires MatchesFit(xs)
    ensures DecodedMatches(|xs|, EncodedMatches(xs) + rest) == Some((xs, |EncodedMatches(xs)|))
  {
    hide DecodedMatch;
    hide MatchFits;
    hide MatchFields;
    hide PutAll;
    if xs == [] {
      assert EncodedMatches(xs) + rest == rest;
    } else {
      hide DecodedMatches;
      var head, tail := PutAll(MatchFields(xs[0])), EncodedMatches(xs[1..]);
      var data := head + (tail + rest);
      Joined(head, tail, rest);
      MatchThere(xs[0], tail + rest);
      MatchesThere(xs[1..], rest);
      assert data[|head|..] == tail + rest;
      DecodedMatchesNext(|xs|, data, xs[0], |head|);
      assert xs == [xs[0]] + xs[1..];
    }
  }

  lemma {:induction false} MatchesBack(n: nat, data: seq<Byte>)
    requires DecodedMatches(n, data).Some?
    ensures MatchesFit(DecodedMatches(n, data).value.0)
  {
    hide DecodedMatch;
    hide MatchFits;
    if n > 0 {
      var first := DecodedMatch(data).value;
      MatchBack(data);
      MatchesBack(n - 1, data[first.1..]);
    }
  }

  lemma {:induction false} MatchesStable(n: nat, a: seq<Byte>, b: seq<Byte>)
    requires DecodedMatches(n, a).Some? && a <= b
    ensures DecodedMatches(n, b) == DecodedMatches(n, a)
    decreases n
  {
    hide DecodedMatch;
    if n > 0 {
      var k := DecodedMatch(a).value.1;
      MatchStable(a, b);
      MatchesStable(n - 1, a[k..], b[k..]);
    }
  }

  function HeadLayout(): (ks: seq<Kind>)
    ensures |ks| == 2
  {
    [KStr, KU32]
  }

  function ParsedSearch(data: seq<Byte>): (r: Option<(Message, nat)>)
    ensures r.Some? ==> r.value.1 <= |data| && r.value.0.SearchResult?
  {
    var head := GetAll(HeadLayout(), data);
    if head.None? then None
    else
      var rest := DecodedMatches(NumOf(head.value.0[1]), data[head.value.1..]);
      if rest.None? then None
      else Some((SearchResult(TextOf(head.value.0[0]), rest.value.0), head.value.1 + rest.value.1))
  }

  function SearchHead(error: string, count: nat): seq<Field> {
    [Str(error), U32(count)]
  }

  function EncodedSearch(error: string, matches: seq<Match>): seq<Byte> {
    PutAll(SearchHead(error, |matches|)) + EncodedMatches(matches)
  }

  predicate SearchFits(error: string, matches: seq<Match>) {
    AllFit(SearchHead(error, |matches|)) && MatchesFit(matches)
  }

  lemma SearchThere(error: string, matches: seq<Match>, rest: seq<Byte>)
    requires SearchFits(error, matches)
    ensures ParsedSearch(EncodedSearch(error, matches) + rest) == Some((SearchResult(error, matches), |EncodedSearch(error, matches)|))
  {
    hide PutAll;
    hide GetAll;
    hide AllFit;
    hide MatchesFit;
    hide EncodedMatches;
    hide DecodedMatches;
    var head, tail := PutAll(SearchHead(error, |matches|)), EncodedMatches(matches);
    Joined(head, tail, rest);
    assert Kinds(SearchHead(error, |matches|)) == HeadLayout();
    GetAllUndoesPutAll(SearchHead(error, |matches|), tail + rest);
    assert (head + (tail + rest))[|head|..] == tail + rest;
    MatchesThere(matches, rest);
  }

  lemma SearchBackAgain(data: seq<Byte>)
    requires ParsedSearch(data).Some?
    ensures var m := ParsedSearch(data).value.0; SearchFits(m.error, m.matches)
  {
    hide PutAll;
    hide GetAll;
    hide MatchesFit;
    hide DecodedMatches;
    var head := GetAll(HeadLayout(), data).value;
    GetAllIsPutAll(HeadLayout(), data);
    assert Kinds(head.0)[0] == KindOf(head.0[0]) && Kinds(head.0)[1] == KindOf(head.0[1]);
    MatchesBack(NumOf(head.0[1]), data[head.1..]);
    var m := ParsedSearch(data).value.0;
    assert SearchHead(m.error, |m.matches|) == head.0;
    hide Fits;
  }

  lemma SearchStable(a: seq<Byte>, b: seq<Byte>)
    requires ParsedSearch(a).Some? && a <= b
    ensures ParsedSearch(b) == ParsedSearch(a)
  {
    hide GetAll;
    hide DecodedMatches;
    GetAllStable(HeadLayout(), a, b);
    var head := GetAll(HeadLayout(), a).value;
    MatchesStable(NumOf(head.0[1]), a[head.1..], b[head.1..]);
  }

  // ---------------------------------------------------------------------
  // Statistics: 17 numbers, then five more that older nodes leave out.
  // ---------------------------------------------------------------------

  function StatsFields(s: Stats): (fs: seq<Field>)
    ensures |fs| == 17
  {
    [U64(s.memoryCount), U64(s.cacheCount), U64(s.embeddingDim), U64(s.evictedMemories), U64(s.evictedCaches),
     FlagField(s.annEnabled), U64(s.annIndexed), U64(s.annPartitions), U64(s.annBuckets), U64(s.annMaxBucket),
     U64(s.annRebuilds), U64(s.annLastRebuildMs), U64(s.annSearches), U64(s.annFallbacks),
     U64(s.snapshotLatency), U64(s.snapshotFailures), U64(s.tenantQuotas)]
  }

  function SizeFields(z: Sizes): (fs: seq<Field>)
    ensures |fs| == 5
  {
    [U64(z.annMemoryBytes), U64(z.annTombstones), U64(z.recordsBytes), U64(z.vectorsBytes), U64(z.totalBytes)]
  }

  function StatsLayout(): (ks: seq<Kind>)
    ensures |ks| == 17
  {
    [KU64, KU64, KU64, KU64, KU64, KU8, KU64, KU64, KU64, KU64, KU64, KU64, KU64, KU64, KU64, KU64, KU64]
  }

  function SizeLayout(): (ks: seq<Kind>)
    ensures |ks| == 5
  {
    [KU64, KU64, KU64, KU64, KU64]
  }

  function StatsOf(fs: seq<Field>, sizes: Sizes): Stats
    requires |fs| == 17
  {
    Stats(
      NumOf(fs[0]), NumOf(fs[1]), NumOf(fs[2]), NumOf(fs[3]), NumOf(fs[4]), Flag(fs[5]), NumOf(fs[6]), NumOf(fs[7]),
      NumOf(fs[8]), NumOf(fs[9]), NumOf(fs[10]), NumOf(fs[11]), NumOf(fs[12]), NumOf(fs[13]), NumOf(fs[14]),
      NumOf(fs[15]), NumOf(fs[16]), sizes)
  }

  function SizesOf(fs: seq<Field>): Sizes
    requires |fs| == 5
  {
    Sizes(NumOf(fs[0]), NumOf(fs[1]), NumOf(fs[2]), NumOf(fs[3]), NumOf(fs[4]))
  }

  function NoSizes(): Sizes {
    Sizes(0, 0, 0, 0, 0)
  }

  /** The sizes, from what follows the first 17 numbers. */
  function ParsedSizes(data: seq<Byte>): Option<Sizes> {
    if data == [] then Some(NoSizes())
    else if |data| != 40 || GetAll(SizeLayout(), data).None? then None
    else Some(SizesOf(GetAll(SizeLayout(), data).value.0))
  }

  function DecodedStats(data: seq<Byte>): Option<Stats> {
    var base := GetAll(StatsLayout(), data);
    if base.None? then None
    else
      var sizes := ParsedSizes(data[base.value.1..]);
      if sizes.None? then None else Some(StatsOf(base.value.0, sizes.value))
  }

  function EncodedStats(s: Stats): seq<Byte> {
    PutAll(StatsFields(s)) + PutAll(SizeFields(s.sizes))
  }

  predicate StatsFit(s: Stats) {
    AllFit(StatsFields(s)) && AllFit(SizeFields(s.sizes))
  }

  lemma StatsWidth()
    ensures Total(StatsLayout()) == 129 && forall i | 0 <= i < 17 :: Width(StatsLayout()[i]) > 0
    ensures Total(SizeLayout()) == 40 && forall i | 0 <= i < 5 :: Width(SizeLayout()[i]) > 0
  {
    hide Total;
    var ks := StatsLayout();
    TotalOne(KU8);
    assert ks == ks[..5] + ([KU8] + ks[6..]);
    TotalJoin(ks[..5], [KU8] + ks[6..]);
    TotalJoin([KU8], ks[6..]);
    TotalRun(ks[..5]);
    TotalRun(ks[6..]);
    TotalRun(SizeLayout());
  }

  /** Statistics have exactly two lengths. */
  lemma StatsLengths(data: seq<Byte>)
    ensures DecodedStats(data).Some? <==> |data| == 129 || |data| == 169
  {
    StatsWidth();
    hide GetAll;
    hide Total;
    hide StatsLayout;
    hide SizeLayout;
    hide StatsOf;
    hide SizesOf;
    NumbersNeed(StatsLayout(), data);
    if |data| >= 129 {
      NumbersNeed(SizeLayout(), data[129..]);
    }
  }

  lemma StatsThere(s: Stats)
    requires StatsFit(s)
    ensures DecodedStats(EncodedStats(s)) == Some(s) && |EncodedStats(s)| == 169
  {
    StatsWidth();
    hide GetAll;
    hide PutAll;
    hide Total;
    hide AllFit;
    hide Width;
    var base, tail := PutAll(StatsFields(s)), PutAll(SizeFields(s.sizes));
    assert Kinds(StatsFields(s)) == StatsLayout() && StatsOf(StatsFields(s), s.sizes) == s;
    assert Kinds(SizeFields(s.sizes)) == SizeLayout() && SizesOf(SizeFields(s.sizes)) == s.sizes;
    hide StatsFields;
    hide StatsLayout;
    hide StatsOf;
    hide SizeFields;
    hide SizeLayout;
    hide SizesOf;
    GetAllUndoesPutAll(StatsFields(s), tail);
    GetAllUndoesPutAll(SizeFields(s.sizes), []);
    assert tail + [] == tail;
    NumbersNeed(StatsLayout(), base + tail);
    NumbersNeed(SizeLayout(), tail);
    assert (base + tail)[|base|..] == tail;
  }

  lemma StatsBack(data: seq<Byte>)
    requires DecodedStats(data).Some?
    ensures StatsFit(DecodedStats(data).value)
  {
    hide GetAll;
    hide PutAll;
    var base := GetAll(StatsLayout(), data).value;
    GetAllIsPutAll(StatsLayout(), data);
    StatsFieldsBack(base.0, ParsedSizes(data[base.1..]).value);
    if data[base.1..] != [] {
      var tail := GetAll(SizeLayout(), data[base.1..]).value.0;
      GetAllIsPutAll(SizeLayout(), data[base.1..]);
      forall i | 0 <= i < 5 ensures tail[i].U64? { assert Kinds(tail)[i] == KU64; }
      assert SizeFields(SizesOf(tail)) == tail;
    }
    hide StatsOf;
    hide StatsLayout;
  }

  lemma StatsFieldsBack(fs: seq<Field>, sizes: Sizes)
    requires Kinds(fs) == StatsLayout() && AllFit(fs)
    ensures AllFit(StatsFields(StatsOf(fs, sizes)))
  {
    hide Fits;
    forall i | 0 <= i < 17 ensures KindOf(fs[i]) == StatsLayout()[i] { assert Kinds(fs)[i] == StatsLayout()[i]; }
    hide Kinds;
    FlagFits(Flag(fs[5]));
    assert StatsFields(StatsOf(fs, sizes)) == fs[5 := FlagField(Flag(fs[5]))];
    hide StatsOf;
    hide StatsFields;
  }

  // ---------------------------------------------------------------------
  // All messages.
  // ---------------------------------------------------------------------

  function Encoded(m: Message): seq<Byte> {
    match m
    case SearchResult(error, matches) => EncodedSearch(error, matches)
    case StatsReport(s) => EncodedStats(s)
    case _ => PutAll(SimpleFields(m))
  }

  /** The message at the front of the data, and the bytes it took. */
  function Parsed(kind: MessageKind, data: seq<Byte>): (r: Option<(Message, nat)>)
    ensures r.Some? ==> r.value.1 <= |data|
  {
    if kind == KSearchResult then ParsedSearch(data)
    else if kind == KStatsReport then
      var s := DecodedStats(data);
      if s.None? then None else Some((StatsReport(s.value), |data|))
    else ParsedSimple(kind, data)
  }

  function ParsedSimple(kind: MessageKind, data: seq<Byte>): (r: Option<(Message, nat)>)
    requires Simple(kind)
    ensures r.Some? ==> r.value.1 <= |data|
  {
    var got := GetAll(SimpleLayout(kind), data);
    if got.None? then None
    else
      var m := SimpleOf(kind, got.value.0);
      if m.None? then None else Some((m.value, got.value.1))
  }

  /** Data is a message when nothing is left over. */
  function Decoded(kind: MessageKind, data: seq<Byte>): Option<Message> {
    var r := Parsed(kind, data);
    if r.None? || r.value.1 != |data| then None else Some(r.value.0)
  }

  predicate MessageFits(m: Message) {
    match m
    case SearchResult(error, matches) => SearchFits(error, matches)
    case StatsReport(s) => StatsFit(s)
    case _ => SimpleFits(m)
  }

  lemma SimpleMessageThere(m: Message, rest: seq<Byte>)
    requires Simple(MessageKindOf(m)) && SimpleFits(m)
    ensures ParsedSimple(MessageKindOf(m), PutAll(SimpleFields(m)) + rest) == Some((Arrived(m), |PutAll(SimpleFields(m))|))
  {
    SimpleThere(m);
    GetAllUndoesPutAll(SimpleFields(m), rest);
    hide *;
    ParsedSimpleIs(MessageKindOf(m), PutAll(SimpleFields(m)) + rest, SimpleFields(m), |PutAll(SimpleFields(m))|, Arrived(m));
  }

  lemma ParsedSimpleIs(kind: MessageKind, data: seq<Byte>, fs: seq<Field>, n: nat, m: Message)
    requires Simple(kind) && GetAll(SimpleLayout(kind), data) == Some((fs, n)) && SimpleOf(kind, fs) == Some(m)
    ensures ParsedSimple(kind, data) == Some((m, n))
  {
    hide GetAll;
    hide SimpleOf;
    hide SimpleLayout;
  }

  /** Every message within the limits arrives, whatever bytes follow it. */
  lemma MessageThere(m: Message, rest: seq<Byte>)
    requires MessageFits(m) && !m.StatsReport?
    ensures Parsed(MessageKindOf(m), Encoded(m) + rest) == Some((Arrived(m), |Encoded(m)|))
  {
    hide ParsedSearch;
    hide ParsedSimple;
    hide EncodedSearch;
    hide SimpleFields;
    hide PutAll;
    hide SimpleFits;
    hide SearchFits;
    if m.SearchResult? {
      SearchThere(m.error, m.matches, rest);
    } else {
      SimpleMessageThere(m, rest);
    }
  }

  lemma ParsedWhole(kind: MessageKind, data: seq<Byte>, m: Message)
    requires Parsed(kind, data) == Some((m, |data|))
    ensures Decoded(kind, data) == Some(m)
  {
    hide Parsed;
  }

  lemma StatsArrive(s: Stats)
    requires StatsFit(s)
    ensures Parsed(KStatsReport, EncodedStats(s)) == Some((StatsReport(s), |EncodedStats(s)|))
  {
    hide DecodedStats;
    hide EncodedStats;
    hide StatsFit;
    StatsThere(s);
  }

  lemma EncodedArrives(m: Message)
    requires MessageFits(m)
    ensures Decoded(MessageKindOf(m), Encoded(m)) == Some(Arrived(m))
  {
    hide Parsed;
    hide Decoded;
    hide EncodedStats;
    hide EncodedSearch;
    hide SimpleFields;
    hide PutAll;
    hide SimpleFits;
    hide SearchFits;
    hide StatsFit;
    if m.StatsReport? {
      StatsArrive(m.stats);
    } else {
      MessageThere(m, []);
      assert Encoded(m) + [] == Encoded(m);
    }
    ParsedWhole(MessageKindOf(m), Encoded(m), Arrived(m));
  }

  /** Every decoded message is within the limits and arrives again as it is. */
  lemma DecodedIsSettled(kind: MessageKind, data: seq<Byte>)
    requires Decoded(kind, data).Some?
    ensures var m := Decoded(kind, data).value; MessageKindOf(m) == kind && MessageFits(m) && Arrived(m) == m
  {
    hide GetAll;
    hide ParsedSearch;
    hide DecodedStats;
    hide SimpleOf;
    hide SimpleLayout;
    hide SimpleFits;
    hide SearchFits;
    hide StatsFit;
    if kind == KSearchResult {
      SearchBackAgain(data);
    } else if kind == KStatsReport {
      StatsBack(data);
    } else {
      GetAllIsPutAll(SimpleLayout(kind), data);
      SimpleBack(kind, GetAll(SimpleLayout(kind), data).value.0);
    }
  }

  /** A message comes back unchanged exactly when it is within the limits and holds nothing the format drops. */
  lemma ComesBackExactlyWhen(m: Message)
    ensures Decoded(MessageKindOf(m), Encoded(m)) == Some(m) <==> MessageFits(m) && Arrived(m) == m
  {
    hide *;
    if MessageFits(m) {
      EncodedArrives(m);
    }
    if Decoded(MessageKindOf(m), Encoded(m)) == Some(m) {
      DecodedIsSettled(MessageKindOf(m), Encoded(m));
    }
  }

  lemma ParsedStable(kind: MessageKind, a: seq<Byte>, b: seq<Byte>)
    requires kind != KStatsReport && Parsed(kind, a).Some? && a <= b
    ensures Parsed(kind, b) == Parsed(kind, a)
  {
    hide GetAll;
    hide ParsedSearch;
    hide SimpleOf;
    hide SimpleLayout;
    if kind == KSearchResult {
      SearchStable(a, b);
    } else {
      GetAllStable(SimpleLayout(kind), a, b);
    }
  }

  /** No message but statistics is a proper prefix of another. */
  lemma OnlyWholeMessages(kind: MessageKind, a: seq<Byte>, b: seq<Byte>)
    requires kind != KStatsReport && Decoded(kind, a).Some? && Decoded(kind, b).Some? && a <= b
    ensures a == b
  {
    hide Parsed;
    ParsedStable(kind, a, b);
  }

  /** Cutting an encoded message short, or adding to it, makes it unreadable; a report may lose exactly its sizes. */
  lemma OnlyTheWholeEncoding(m: Message, data: seq<Byte>)
    requires MessageFits(m) && (data <= Encoded(m) || Encoded(m) <= data) && data != Encoded(m)
    ensures Decoded(MessageKindOf(m), data).Some? <==> m.StatsReport? && |data| == 129
  {
    hide Decoded;
    hide Encoded;
    hide MessageFits;
    EncodedArrives(m);
    if m.StatsReport? {
      ReportLengths(m.stats, data);
    } else if Decoded(MessageKindOf(m), data).Some? {
      if data <= Encoded(m) {
        OnlyWholeMessages(MessageKindOf(m), data, Encoded(m));
      } else {
        OnlyWholeMessages(MessageKindOf(m), Encoded(m), data);
      }
    }
  }

  lemma ReportLengths(s: Stats, data: seq<Byte>)
    requires MessageFits(StatsReport(s)) && (data <= Encoded(StatsReport(s)) || Encoded(StatsReport(s)) <= data)
    requires data != Encoded(StatsReport(s))
    ensures Decoded(KStatsReport, data).Some? <==> |data| == 129
  {
    hide DecodedStats;
    hide EncodedStats;
    hide StatsFit;
    StatsThere(s);
    StatsLengths(data);
  }

  // ---------------------------------------------------------------------
  // The encoders and decoders.
  // ---------------------------------------------------------------------

  method Encode(m: Message) returns (out: seq<Byte>)
    ensures out == Encoded(m)
  {
    hide PutAll;
    hide EncodedMatches;
    hide EncodedRecord;
    hide EncodedEntry;
    hide RecordFields;
    hide EntryFields;
    hide QueryFields;
    hide ToString;
    match m {
      case SearchResult(error, matches) =>
        out := WriteFields(SearchHead(error, |matches|));
        out := EncodeMatches(out, matches);
      case StatsReport(s) =>
        out := WriteFields(StatsFields(s));
        var sizes := WriteFields(SizeFields(s.sizes));
        out := out + sizes;
      case GetResult(found, error, r) =>
        var record := EncodeRecord(r);
        out := WriteFields([FlagField(found), Str(error), Str(ToString(record))]);
      case CacheResult(hit, exact, score, e) =>
        var entry := EncodeEntry(e);
        out := WriteFields([FlagField(hit), FlagField(exact), U64(score), Str(ToString(entry))]);
      case _ =>
        out := WriteFields(SimpleFields(m));
    }
  }

  method EncodeRecord(r: Record) returns (out: seq<Byte>)
    ensures out == EncodedRecord(r)
  {
    out := WriteFields(RecordFields(r));
  }

  method EncodeEntry(e: Entry) returns (out: seq<Byte>)
    ensures out == EncodedEntry(e)
  {
    out := WriteFields(EntryFields(e));
  }

  method EncodeMatch(x: Match) returns (out: seq<Byte>)
    ensures out == PutAll(MatchFields(x))
  {
    hide PutAll;
    hide EncodedRecord;
    hide ToString;
    var record := EncodeRecord(x.record);
    out := WriteFields([Str(ToString(record)), U64(x.score), U64(x.similarity)]);
  }

  method EncodeMatches(head: seq<Byte>, matches: seq<Match>) returns (out: seq<Byte>)
    ensures out == head + EncodedMatches(matches)
  {
    hide PutAll;
    hide MatchFields;
    out := head;
    assert matches[0..] == matches;
    for i := 0 to |matches|
      invariant out + EncodedMatches(matches[i..]) == head + EncodedMatches(matches)
    {
      assert matches[i..][1..] == matches[i + 1..];
      var one := EncodeMatch(matches[i]);
      Joined(out, one, EncodedMatches(matches[i + 1..]));
      out := out + one;
    }
    assert out + [] == out;
  }

  /** Reads fields of these kinds; nothing may be left over. */
  method DecodeFields(kinds: seq<Kind>, data: seq<Byte>) returns (fs: Option<seq<Field>>)
    ensures fs.Some? <==> GetAll(kinds, data).Some? && GetAll(kinds, data).value.1 == |data|
    ensures fs.Some? ==> fs.value == GetAll(kinds, data).value.0
  {
    hide GetAll;
    var reader := new Reader(data);
    assert data[0..] == data;
    fs := reader.ReadFields(kinds);
    if fs.Some? && !reader.Finished() { return None; }
  }

  method Decode(kind: MessageKind, data: seq<Byte>) returns (m: Option<Message>)
    ensures m == Decoded(kind, data)
  {
    hide GetAll;
    hide SimpleLayout;
    hide SimpleOf;
    hide ParsedSearch;
    hide DecodedStats;
    if kind == KSearchResult {
      m := DecodeSearch(data);
    } else if kind == KStatsReport {
      var s := DecodeStats(data);
      m := if s.None? then None else Some(StatsReport(s.value));
    } else {
      var fs := DecodeFields(SimpleLayout(kind), data);
      if fs.None? { return None; }
      m := DecodeSimple(kind, fs.value);
    }
  }

  method DecodeRecord(data: seq<Byte>) returns (r: Option<Record>)
    ensures r == DecodedRecord(data)
  {
    hide GetAll;
    hide RecordLayout;
    hide RecordOf;
    var fs := DecodeFields(RecordLayout(), data);
    r := if fs.None? then None else Some(RecordOf(fs.value));
  }

  method DecodeEntry(data: seq<Byte>) returns (e: Option<Entry>)
    ensures e == DecodedEntry(data)
  {
    hide GetAll;
    hide EntryLayout;
    hide EntryOf;
    var fs := DecodeFields(EntryLayout(), data);
    e := if fs.None? then None else Some(EntryOf(fs.value));
  }

  /** The message with these fields; a record or entry inside it is decoded only if it is to be there. */
  method DecodeSimple(kind: MessageKind, fs: seq<Field>) returns (m: Option<Message>)
    requires Simple(kind) && |fs| == SimpleCount(kind)
    ensures m == SimpleOf(kind, fs)
  {
    hide DecodedRecord;
    hide DecodedEntry;
    hide RecordOf;
    hide EntryOf;
    hide QueryOf;
    if kind == KGetResult && Flag(fs[0]) {
      var r := DecodeRecord(FromString(TextOf(fs[2])));
      m := if r.None? then None else Some(GetResult(true, TextOf(fs[1]), r.value));
    } else if kind == KCacheResult && Flag(fs[0]) {
      var e := DecodeEntry(FromString(TextOf(fs[3])));
      m := if e.None? then None else Some(CacheResult(true, Flag(fs[1]), NumOf(fs[2]), e.value));
    } else {
      m := SimpleOf(kind, fs);
    }
  }

  method DecodeStats(data: seq<Byte>) returns (s: Option<Stats>)
    ensures s == DecodedStats(data)
  {
    hide GetAll;
    hide StatsLayout;
    hide SizeLayout;
    hide StatsOf;
    hide SizesOf;
    var reader := new Reader(data);
    assert data[0..] == data;
    var base := reader.ReadFields(StatsLayout());
    if base.None? { return None; }
    var sizes := NoSizes();
    if !reader.Finished() {
      if |data| - reader.pos != 40 { return None; }
      var tail := reader.ReadFields(SizeLayout());
      if tail.None? { return None; }
      sizes := SizesOf(tail.value);
    }
    return Some(StatsOf(base.value, sizes));
  }

  method DecodeSearch(data: seq<Byte>) returns (m: Option<Message>)
    ensures m == var r := ParsedSearch(data); if r.None? || r.value.1 != |data| then None else Some(r.value.0)
  {
    hide GetAll;
    hide HeadLayout;
    hide DecodedMatches;
    var reader := new Reader(data);
    assert data[0..] == data;
    var head := reader.ReadFields(HeadLayout());
    if head.None? { return None; }
    var matches := DecodeMatches(reader, NumOf(head.value[1]));
    if matches.None? || !reader.Finished() { return None; }
    return Some(SearchResult(TextOf(head.value[0]), matches.value));
  }

  method DecodeMatches(reader: Reader, n: nat) returns (xs: Option<seq<Match>>)
    requires reader.Valid()
    modifies reader`pos
    ensures reader.Valid() && reader.pos >= old(reader.pos)
    ensures var r := DecodedMatches(n, reader.data[old(reader.pos)..]);
      && (xs.Some? <==> r.Some?)
      && (xs.Some? ==> xs.value == r.value.0 && reader.pos == old(reader.pos) + r.value.1)
  {
    hide DecodedMatches;
    hide DecodedMatch;
    hide MatchesUpTo;
    var got: seq<Match> := [];
    ghost var start := reader.pos;
    NoMatchYet(n, reader.data, start);
    for i := 0 to n
      invariant start <= reader.pos <= |reader.data|
      invariant MatchesUpTo(n, reader.data, start, i, reader.pos, got)
    {
      ghost var before := reader.pos;
      var x := DecodeMatch(reader);
      if x.None? {
        NoMoreMatches(n, reader.data, start, i, before, got);
        return None;
      }
      OneMoreMatch(n, reader.data, start, i, before, got, x.value, reader.pos - before);
      got := got + [x.value];
    }
    AllMatches(n, reader.data, start, reader.pos, got);
    return Some(got);
  }

  method DecodeMatch(reader: Reader) returns (x: Option<Match>)
    requires reader.Valid()
    modifies reader`pos
    ensures reader.Valid() && reader.pos >= old(reader.pos)
    ensures var r := DecodedMatch(reader.data[old(reader.pos)..]);
      && (x.Some? <==> r.Some?)
      && (x.Some? ==> x.value == r.value.0 && reader.pos == old(reader.pos) + r.value.1)
  {
    hide GetAll;
    hide DecodedRecord;
    hide MatchLayout;
    var fs := reader.ReadFields(MatchLayout());
    if fs.None? { return None; }
    var r := DecodeRecord(FromString(TextOf(fs.value[0])));
    x := if r.None? then None else Some(Match(r.value, NumOf(fs.value[1]), NumOf(fs.value[2])));
  }

  /** Reading n matches from start gives those got so far, then what reading on gives. */
  ghost predicate MatchesUpTo(n: nat, data: seq<Byte>, start: nat, i: nat, pos: nat, got: seq<Match>)
    requires i <= n && start <= pos <= |data|
  {
    var whole, rest := DecodedMatches(n, data[start..]), DecodedMatches(n - i, data[pos..]);
    if rest.None? then whole.None? else whole == Some((got + rest.value.0, pos - start + rest.value.1))
  }

  lemma NoMatchYet(n: nat, data: seq<Byte>, start: nat)
    requires start <= |data|
    ensures MatchesUpTo(n, data, start, 0, start, [])
  {
    hide DecodedMatches;
    var whole := DecodedMatches(n, data[start..]);
    if whole.Some? { assert [] + whole.value.0 == whole.value.0; }
  }

  lemma OneMoreMatch(n: nat, data: seq<Byte>, start: nat, i: nat, pos: nat, got: seq<Match>, x: Match, k: nat)
    requires i < n && start <= pos <= pos + k <= |data| && MatchesUpTo(n, data, start, i, pos, got)
    requires DecodedMatch(data[pos..]) == Some((x, k))
    ensures MatchesUpTo(n, data, start, i + 1, pos + k, got + [x])
  {
    hide DecodedMatch;
    hide DecodedMatches;
    assert data[pos..][k..] == data[pos + k..];
    DecodedMatchesNext(n - i, data[pos..], x, k);
    var rest := DecodedMatches(n - i - 1, data[pos + k..]);
    if rest.Some? { assert got + ([x] + rest.value.0) == (got + [x]) + rest.value.0; }
  }

  lemma NoMoreMatches(n: nat, data: seq<Byte>, start: nat, i: nat, pos: nat, got: seq<Match>)
    requires i < n && start <= pos <= |data| && MatchesUpTo(n, data, start, i, pos, got)
    requires DecodedMatch(data[pos..]).None?
    ensures DecodedMatches(n, data[start..]).None?
  {
    hide DecodedMatch;
    assert DecodedMatches(n - i, data[pos..]).None?;
  }

  lemma AllMatches(n: nat, data: seq<Byte>, start: nat, pos: nat, got: seq<Match>)
    requires start <= pos <= |data| && MatchesUpTo(n, data, start, n, pos, got)
    ensures DecodedMatches(n, data[start..]) == Some((got, pos - start))
  {
    assert DecodedMatches(0, data[pos..]) == Some(([], 0));
    hide DecodedMatches;
    assert got + [] == got;
  }
}
