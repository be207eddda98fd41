/** The pool of Redis clients: what is borrowed, and how borrowing and returning can fail. */
module RedisPool {

  type Client = nat

  /** What acquiring a client does: lends one that is free, fails, or fails after lending. */
  datatype Acquire = Lends(client: Client) | AcquireFails | SetNameFails(client: Client)

  class Pool {
    var borrowed: set<Client>

    constructor ()
      ensures borrowed == {}
    {
      borrowed := {};
    }

    /** A client is lent to one borrower at a time; when naming it fails it is handed back first. */
    method GetPoolClient(how: Acquire) returns (ok: bool, client: Client)
      requires !how.AcquireFails? ==> how.client !in borrowed
      modifies this
      ensures ok == how.Lends?
      ensures ok ==> client == how.client && borrowed == old(borrowed) + {client}
      ensures !ok ==> borrowed == old(borrowed)
    {
      ok, client := false, 0;
      match how
      case AcquireFails =>
      case SetNameFails(c) =>
        client := c;
        borrowed := borrowed + {c};
        borrowed := borrowed - {c};
      case Lends(c) =>
        ok, client := true, c;
        borrowed := borrowed + {c};
    }

    /** Returns a borrowed client; another one is left alone. A failing return leaves it borrowed. */
    method ReleasePoolClient(client: Client, fails: bool)
      modifies this
      ensures borrowed == if fails then old(borrowed) else old(borrowed) - {client}
    {
      if client in borrowed && !fails {
        borrowed := borrowed - {client};
      }
    }
  }
}
