/**
 The certificates table and the statements run on it. Row ids are positions: rows are numbered in the
 order of insertion and never deleted. Times are nanoseconds, delays are configured in seconds.
 */
module CertificateTable {
  import opened Wrappers
  import opened Bytes
  import opened Metadata

  const SECOND: int := 1_000_000_000
  const DEFAULT_DELAY_SECONDS: int := 172800

  datatype Row = Row(
    rawProto: bytes,
    certId: bytes,
    metadata: Option<Meta>,
    receivedAt: int,
    processedAt: Option<int>,
    overrideSentAt: Option<int>)

  type Table = seq<Row>

  function NewRow(rawProto: bytes, certId: bytes, metadata: Option<Meta>, now: int): Row {
    Row(rawProto, certId, metadata, now, None, None)
  }

  /** `processed_at IS NULL AND (received_at <= cutoff OR override_sent_at IS NOT NULL)`. */
  predicate Ready(row: Row, now: int, delaySeconds: int) {
    row.processedAt.None? && (row.receivedAt <= now - delaySeconds * SECOND || row.overrideSentAt.Some?)
  }

  /** The ready rows, in row order. */
  function Processable(table: Table, now: int, delaySeconds: int): (ids: seq<nat>)
    ensures forall k :: 0 <= k < |ids| ==> ids[k] < |table| && Ready(table[ids[k]], now, delaySeconds)
    ensures forall j, k :: 0 <= j < k < |ids| ==> ids[j] < ids[k]
    ensures forall r :: 0 <= r < |table| && Ready(table[r], now, delaySeconds) ==> r in ids
    ensures forall r: nat :: r < |table| ==>
              (r in ids <==>
                 table[r].processedAt.None?
                 && (table[r].receivedAt + delaySeconds * 1_000_000_000 <= now || table[r].overrideSentAt.Some?))
  {
    if |table| == 0 then []
    else
      var front := Processable(table[..|table| - 1], now, delaySeconds);
      if Ready(table[|table| - 1], now, delaySeconds) then front + [|table| - 1] else front
  }

  function MarkProcessed(table: Table, id: nat, now: int): Table {
    if id < |table| then table[id := table[id].(processedAt := Some(now))] else table
  }

  function MarkOverrideSent(table: Table, id: nat, now: int): Table {
    if id < |table| then table[id := table[id].(overrideSentAt := Some(now))] else table
  }

  /** `WHERE cert_id = id`, the first row in row order. */
  function FindById(table: Table, certId: bytes): (found: Option<nat>)
    ensures found.Some? ==> found.value < |table| && table[found.value].certId == certId
    ensures found.Some? ==> forall r :: 0 <= r < found.value ==> table[r].certId != certId
    ensures found.None? ==> forall r :: 0 <= r < |table| ==> table[r].certId != certId
  {
    if |table| == 0 then None
    else
      var front := FindById(table[..|table| - 1], certId);
      if front.Some? then front
      else if table[|table| - 1].certId == certId then Some(|table| - 1)
      else None
  }

  /** Later contents of a row: only the two time stamps are ever written, and they are never cleared. */
  predicate Later(a: Row, b: Row) {
    && b.rawProto == a.rawProto && b.certId == a.certId && b.metadata == a.metadata && b.receivedAt == a.receivedAt
    && (a.processedAt.Some? ==> b.processedAt.Some?)
    && (a.overrideSentAt.Some? ==> b.overrideSentAt.Some?)
  }

  predicate Grown(before: Table, after: Table) {
    |before| <= |after| && forall r :: 0 <= r < |before| ==> Later(before[r], after[r])
  }
}
