/** The control plane's checkout registry, its one-use leases and the durable rows of the reservations,
    as values. */
module Checkout {
  import opened Wrappers

  type ID = string
  type LeaseID = nat

  /** Who a reservation belongs to. */
  datatype Key = Key(server: string, attempt: int, fence: int)

  datatype Entry = Entry(key: Key, lease: Option<LeaseID>, started: bool, closed: bool, expires: int)

  type Entries = map<ID, Entry>

  const TTL: nat := 1800  // seconds

  // ----- the registry's operations on values -----

  function Swept(es: Entries, now: int): Entries {
    map id | id in es && es[id].expires > now :: es[id]
  }

  predicate Matches(es: Entries, id: ID, key: Key) {
    id in es && es[id].key == key
  }

  predicate Claimable(es: Entries, id: ID, key: Key) {
    Matches(es, id, key) && !es[id].started && !es[id].closed
  }

  function Claimed(es: Entries, id: ID): Entries
    requires id in es
  {
    es[id := es[id].(started := true)]
  }

  function Released(es: Entries, id: ID): Entries {
    if id in es && es[id].lease.None? then es[id := es[id].(started := false)] else es
  }

  function WithLease(es: Entries, id: ID, l: LeaseID): Entries {
    if id in es then es[id := es[id].(lease := Some(l))] else es
  }

  function Closed(es: Entries, id: ID): Entries {
    if id in es then es[id := es[id].(closed := true)] else es
  }

  // ----- the lease -----

  /** `live` says whether the lease still holds its token. */
  datatype Lease = Lease(reservation: ID, live: bool, delivered: bool, invalidated: bool)

  predicate Usable(l: Lease) {
    l.live && !l.delivered && !l.invalidated
  }

  // ----- the store -----

  /** The durable row of a reservation. Every step forward needs the stage before it; the last three
      are final. */
  datatype Stage = Reserved | Minting | Active | Running | Consumed | Invalidated | Expired

  type Rows = map<ID, Stage>

  /** What a caller of the store experiences: it went through, it did not, or it did and the answer
      was lost. */
  datatype Answer = Yes | No | Unheard

  predicate Open(stage: Stage) {
    stage in {Reserved, Minting, Active, Running}
  }

  /** A move from one stage to the next is possible at all. */
  predicate Allows(rows: Rows, id: ID, a: Answer, from: Stage) {
    a != No ==> id in rows && rows[id] == from
  }

  function Moved(rows: Rows, id: ID, a: Answer, to: Stage): Rows {
    if a == No then rows else rows[id := to]
  }

  /** Closing consumes an open reservation and changes nothing else; `done` is whether it took effect. */
  function CloseRow(rows: Rows, id: ID, done: bool): Rows {
    if done && id in rows && Open(rows[id]) then rows[id := Consumed] else rows
  }

  // ----- the provider -----

  datatype Error = Unavailable | Stale | RevocationRequired

  /** What minting gave: even a failed or unusable answer may carry a token. */
  datatype Minted = Minted(token: string, failed: bool, valid: bool)

  /** The provider, with the tokens that work. */
  class Provider {
    var live: set<string>
  }
}
