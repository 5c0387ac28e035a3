/**
 * The browser state the session code shares: the `access_token` entry of
 * localStorage (the only persisted credential), the navigation targets the
 * code has issued, and the requests the client has handed to the backend.
 */
module Environment {
  import opened Values
  import opened Http

  /** A snapshot of the browser state. */
  datatype Env = Env(storage: Option<string>, visits: seq<string>, wire: seq<Request>)

  class Browser {
    /** localStorage["access_token"]; `None` when the key is absent. */
    var storage: Option<string>
    /** Navigation targets, oldest first (window.location.href and router navigation). */
    var visits: seq<string>
    /** Request configs dispatched to the backend, oldest first. */
    var wire: seq<Request>

    constructor (storage: Option<string>)
      ensures Snapshot() == Env(storage, [], [])
    {
      this.storage := storage;
      visits := [];
      wire := [];
    }

    function Snapshot(): Env
      reads this
    {
      Env(storage, visits, wire)
    }

    /** `localStorage.getItem("access_token")` */
    method GetItem() returns (v: Option<string>)
      ensures v == storage
    {
      v := storage;
    }

    /** `localStorage.setItem("access_token", v)`: the new credential supersedes the old one. */
    method SetItem(v: string)
      modifies this
      ensures Snapshot() == old(Snapshot()).(storage := Some(v))
    {
      storage := Some(v);
    }

    /** `localStorage.removeItem("access_token")`; removing an absent key is a no-op. */
    method RemoveItem()
      modifies this
      ensures Snapshot() == old(Snapshot()).(storage := None)
    {
      storage := None;
    }

    method Navigate(route: string)
      modifies this
      ensures Snapshot() == old(Snapshot()).(visits := old(visits) + [route])
    {
      visits := visits + [route];
    }

    method Transmit(c: Request)
      modifies this
      ensures Snapshot() == old(Snapshot()).(wire := old(wire) + [c])
    {
      wire := wire + [c];
    }
  }
}
