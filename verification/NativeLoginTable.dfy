/** The native login exchange: one database row per attempt moves from started
    to ticketed to consumed under three endpoints that any number of clients and
    replicas call at once.  The table and its SQL statements come first, then the
    interleaved machine with its ghost history. */
module NativeLoginTable {
  import opened Common

  // Times are database timestamps in microseconds.
  const LIFETIME := 300_000_000
  const GLOBAL_CAP := 10000
  const CLIENT_CAP := 8
  const PURGE_LIMIT := 100

  datatype Claims = Claims(subject: string, tenant: string)

  datatype Transfer = Transfer(claims: Claims, sessionExpiry: int, originExpiry: int)

  datatype Membership = Membership(tenant: string, user: string, status: string, provider: string, subject: string)

  predicate ActiveMembership(claims: Claims, found: Option<Membership>) {
    && claims.subject != "" && claims.tenant != ""
    && found.Some? && found.value.status == "active" && found.value.tenant == claims.tenant
    && found.value.user == claims.subject && found.value.provider == "cloud" && found.value.subject == claims.subject
  }

  datatype Row = Row(
    clientKey: string, verifierHash: string, port: int, state: string,
    ticketHash: Option<string>, transfer: Option<Transfer>,
    expires: int, consumed: Option<int>)

  type Table = map<string, Row>

  function ActiveIds(rows: Table, now: int): set<string> {
    set id | id in rows && rows[id].expires > now
  }

  function ClientIds(rows: Table, clientKey: string, now: int): set<string> {
    set id | id in rows && rows[id].clientKey == clientKey && rows[id].expires > now && rows[id].consumed.None?
  }

  predicate Ticketable(rows: Table, now: int, id: string) {
    id in rows && rows[id].expires > now && rows[id].ticketHash.None? && rows[id].consumed.None?
  }

  function Ticketed(rows: Table, now: int, id: string, ticketHash: string, transfer: Transfer): Table {
    if Ticketable(rows, now, id)
    then rows[id := rows[id].(ticketHash := Some(ticketHash), transfer := Some(transfer))]
    else rows
  }

  predicate Redeemable(row: Row, now: int, ticketHash: string, verifierHash: string, state: string) {
    && row.ticketHash == Some(ticketHash) && row.verifierHash == verifierHash && row.state == state
    && row.expires > now && row.consumed.None? && row.transfer.Some?
  }

  /** Some redeemable row holds this transfer. */
  ghost predicate Offers(rows: Table, now: int, ticketHash: string, verifierHash: string, state: string, transfer: Option<Transfer>) {
    exists id | id in rows :: Redeemable(rows[id], now, ticketHash, verifierHash, state) && rows[id].transfer == transfer
  }

  /** The UPDATE touches every matching row; that there is at most one is proved below. */
  function Consumed(rows: Table, now: int, ticketHash: string, verifierHash: string, state: string): (r: Table)
    ensures r.Keys == rows.Keys
  {
    map id | id in rows ::
      if Redeemable(rows[id], now, ticketHash, verifierHash, state) then rows[id].(consumed := Some(now)) else rows[id]
  }

  /** base64.RawURLEncoding skips line breaks and then wants whole characters of its alphabet. */
  predicate IsBase64Url(c: char) {
    'A' <= c <= 'Z' || 'a' <= c <= 'z' || '0' <= c <= '9' || c == '-' || c == '_'
  }

  function DecodedLength(s: string): Option<nat> {
    var text := Filter(s, c => c != '\r' && c != '\n');
    if (forall i | 0 <= i < |text| :: IsBase64Url(text[i])) && |text| % 4 != 1 then Some(|text| * 6 / 8) else None
  }

  predicate ValidStart(challenge: string, port: int) {
    63690 <= port <= 63694 && DecodedLength(challenge) == Some(32) && |challenge| == 43
  }

  predicate ValidExchange(ticket: string, verifier: string, state: string) {
    && |ticket| == 43 && |state| == 43 && 43 <= |verifier| <= 128
    && DecodedLength(verifier).Some? && DecodedLength(verifier).value >= 32
  }

  /** The table as the handlers see it, one method per SQL statement. */
  class HandoffTable {
    var rows: Table

    constructor ()
      ensures rows == map[]
    {
      rows := map[];
    }

    /** DELETE of up to 100 rows that expired before `now`. */
    method Purge(now: int)
      modifies this
      ensures rows.Keys <= old(rows.Keys) && forall id | id in rows :: rows[id] == old(rows)[id]
      ensures forall id | id in old(rows) && id !in rows :: old(rows)[id].expires < now
      ensures |old(rows.Keys) - rows.Keys| <= PURGE_LIMIT
      ensures |old(rows.Keys) - rows.Keys| == PURGE_LIMIT || forall id | id in rows :: rows[id].expires >= now
    {
      var doomed: set<string> := {};
      var rest := rows.Keys;
      while rest != {} && |doomed| < PURGE_LIMIT
        invariant doomed <= rows.Keys && rest <= rows.Keys && |doomed| <= PURGE_LIMIT
        invariant forall id | id in doomed :: rows[id].expires < now
        invariant forall id | id in rows && id !in doomed && id !in rest :: rows[id].expires >= now
        invariant rows == old(rows)
        decreases rest
      {
        var id :| id in rest;
        if rows[id].expires < now { doomed := doomed + {id}; }
        rest := rest - {id};
      }
      rows := rows - doomed;
      assert old(rows.Keys) - rows.Keys == doomed;
    }

    method CountActive(now: int) returns (n: nat)
      ensures n == |ActiveIds(rows, now)|
    {
      n := 0;
      ghost var counted: set<string> := {};
      var rest := rows.Keys;
      while rest != {}
        invariant rest <= rows.Keys && n == |counted|
        invariant forall id :: id in counted <==> id in ActiveIds(rows, now) && id !in rest
        decreases rest
      {
        var id :| id in rest;
        if rows[id].expires > now { n, counted := n + 1, counted + {id}; }
        rest := rest - {id};
      }
      assert counted == ActiveIds(rows, now);
    }

    /** INSERT: for five minutes the new row counts once against both caps and can take a ticket. */
    method Insert(id: string, clientKey: string, verifierHash: string, port: int, state: string, now: int)
      requires id !in rows
      modifies this
      ensures rows == old(rows)[id := Row(clientKey, verifierHash, port, state, None, None, now + LIFETIME, None)]
      ensures forall t :: ActiveIds(rows, t) == ActiveIds(old(rows), t) + if t < now + LIFETIME then {id} else {}
      ensures forall t, key :: ClientIds(rows, key, t) == ClientIds(old(rows), key, t) + if key == clientKey && t < now + LIFETIME then {id} else {}
      ensures forall t :: Ticketable(rows, t, id) <==> t < now + LIFETIME
    {
      rows := rows[id := Row(clientKey, verifierHash, port, state, None, None, now + LIFETIME, None)];
    }

    method AttachTicket(now: int, id: string, ticketHash: string, transfer: Transfer) returns (callback: Option<(int, string)>)
      modifies this
      ensures rows == Ticketed(old(rows), now, id, ticketHash, transfer)
      ensures callback.Some? <==> Ticketable(old(rows), now, id)
      ensures callback.Some? ==> callback.value == (old(rows)[id].port, old(rows)[id].state)
    {
      if id in rows && rows[id].expires > now && rows[id].ticketHash.None? && rows[id].consumed.None? {
        callback := Some((rows[id].port, rows[id].state));
        rows := rows[id := rows[id].(ticketHash := Some(ticketHash), transfer := Some(transfer))];
      } else {
        callback := None;
      }
    }

    method Consume(now: int, ticketHash: string, verifierHash: string, state: string) returns (transfer: Option<Transfer>)
      modifies this
      ensures rows == Consumed(old(rows), now, ticketHash, verifierHash, state)
      ensures transfer.None? <==> rows == old(rows)
      ensures transfer.Some? ==> Offers(old(rows), now, ticketHash, verifierHash, state, transfer)
    {
      transfer := None;
      var rest := rows.Keys;
      while rest != {}
        invariant rest <= rows.Keys && rows == old(rows)
        invariant transfer.None? ==> forall id | id in rows && id !in rest :: !Redeemable(rows[id], now, ticketHash, verifierHash, state)
        invariant transfer.Some? ==> Offers(rows, now, ticketHash, verifierHash, state, transfer)
        decreases rest
      {
        var id :| id in rest;
        if Redeemable(rows[id], now, ticketHash, verifierHash, state) { transfer := rows[id].transfer; }
        rest := rest - {id};
      }
      rows := Consumed(rows, now, ticketHash, verifierHash, state);
      if transfer.Some? {
        ghost var id :| id in old(rows) && Redeemable(old(rows)[id], now, ticketHash, verifierHash, state);
        assert rows[id] != old(rows)[id];
      }
    }
  }
}
