/** The table of outstanding request ids of one wallet connection. The functions say what each
    lock section does; the class performs them in place. */
module Pending {
  import opened Sequences

  type Key = Bytes

  datatype PendingRequest = AwaitsUpstream | AwaitsRelay
  datatype Reservation = Reserved | Duplicate | LimitExceeded

  type Table = map<Key, PendingRequest>

  function Reserve(table: Table, key: Key, request: PendingRequest, max: nat): (r: (Table, Reservation))
    ensures r.1 != Reserved ==> r.0 == table
    ensures |table| <= max ==> |r.0| <= max
  {
    if key in table then (table, Duplicate)
    else if |table| >= max then (table, LimitExceeded)
    else
      assert table[key := request].Keys == table.Keys + {key};
      (table[key := request], Reserved)
  }

  /** The forwarder's lock section: a response is accepted only for an id awaiting the upstream. */
  function Accept(table: Table, key: Key): (Table, bool) {
    if key in table && table[key] == AwaitsUpstream then (table - {key}, true) else (table, false)
  }

  class PendingRequests {
    var table: Table

    constructor ()
      ensures table == map[]
    {
      table := map[];
    }

    method ReserveRequest(key: Key, request: PendingRequest, max: nat) returns (r: Reservation)
      modifies this
      ensures (table, r) == Reserve(old(table), key, request, max)
    {
      if key in table {
        return Duplicate;
      }
      if |table| >= max {
        return LimitExceeded;
      }
      table := table[key := request];
      return Reserved;
    }

    method AcceptResponse(key: Key) returns (forward: bool)
      modifies this
      ensures (table, forward) == Accept(old(table), key)
    {
      forward := false;
      if key in table && table[key] == AwaitsUpstream {
        table := table - {key};
        forward := true;
      }
    }

    /** Releases the key of a broadcast the relay has returned from. */
    method Release(key: Key)
      modifies this
      ensures table == old(table) - {key}
    {
      table := table - {key};
    }
  }

  /** Reserving and then releasing a key is the identity, and so is reserving and then accepting a
      response; a response is refused exactly when the key is absent or awaits the relay. */
  lemma ReserveThenRelease(table: Table, key: Key, request: PendingRequest, max: nat)
    requires Reserve(table, key, request, max).1 == Reserved
    ensures var reserved := Reserve(table, key, request, max).0;
            && reserved - {key} == table
            && Accept(reserved, key) == (if request == AwaitsUpstream then (table, true) else (reserved, false))
  {
    assert table[key := request] - {key} == table;
  }
}
