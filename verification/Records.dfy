/**
  The records of the Agent Memory layer.

  Records are generic in the type of an embedding component (F) and of a
  double-precision value (D): the store works on values, the wire and snapshot
  formats on bit patterns.  Strings are byte strings, one `char` per byte.
 */
module Records {

  datatype MemoryRecord<F, D> = MemoryRecord(
    memoryId: string, tenantId: string, namespaceId: string, userId: string,
    sessionId: string, agentId: string, kind: string, content: string,
    metadataJson: string, embedding: seq<F>, tokenCount: int, importance: D,
    createdAt: int, lastAccessed: int, expiresAt: int, pinned: bool, accessCount: nat)

  datatype CacheEntry<F> = CacheEntry(
    cacheId: string, tenantId: string, namespaceId: string, prompt: string,
    response: string, metadataJson: string, embedding: seq<F>, tokenCount: int,
    createdAt: int, lastAccessed: int, expiresAt: int, accessCount: nat)

  datatype MemoryQuery<F> = MemoryQuery(
    tenantId: string, namespaceId: string, userId: string, sessionId: string,
    agentId: string, kind: string, embedding: seq<F>, limit: nat, now: int,
    includeExpired: bool, forceScan: bool, updateAccess: bool)

  function Decimal(n: nat): string {
    var digit := [('0' as int + n % 10) as char];
    if n < 10 then digit else Decimal(n / 10) + digit
  }

  /** White space, as the C library has it. */
  predicate IsSpace(c: char) {
    c == ' ' || '\t' <= c <= '\r'
  }

  function OrDefault(namespaceId: string): string {
    if namespaceId == "" then "default" else namespaceId
  }
}
