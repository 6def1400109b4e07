/** A request's lease and the counters its slots belong to, as objects: what
    one request does when nothing else acts in between. The interleavings are
    in module Admission. */
module AdmissionLease {

  class ConcState {
    var inFlight: int
    var cap: int

    constructor (cap: int)
      ensures inFlight == 0 && this.cap == cap
    {
      inFlight, this.cap := 0, cap;
    }
  }

  class Lease {
    var fns: seq<ConcState>
    var released: bool

    constructor ()
      ensures fns == [] && !released
    {
      fns, released := [], false;
    }

    method OnRelease(c: ConcState)
      modifies this`fns
      ensures fns == old(fns) + [c]
    {
      fns := fns + [c];
    }

    /** Runs every registered decrement exactly once, however often called. */
    method Release()
      modifies this, fns
      ensures released && (if old(released) then fns == old(fns) else fns == [])
      ensures forall c :: c in old(fns) ==>
        c.inFlight == old(c.inFlight) - (if old(released) then 0 else multiset(old(fns))[c]) && c.cap == old(c.cap)
    {
      if released { return; }
      released := true;
      var run := fns;
      fns := [];
      for i := 0 to |run|
        modifies run
        invariant forall c :: c in run ==> c.inFlight == old(c.inFlight) - multiset(run[..i])[c] && c.cap == old(c.cap)
      {
        assert run[..i + 1] == run[..i] + [run[i]];
        run[i].inFlight := run[i].inFlight - 1;
      }
      assert run[..|run|] == run;
    }
  }

  /** Take a slot and register its decrement; `cs` is null when the tenant has
      no limit. */
  method AcquireConcurrency(cs: ConcState?, lease: Lease) returns (admitted: bool)
    modifies cs, lease`fns
    ensures admitted <==> cs == null || cs.cap <= 0 || old(cs.inFlight) < cs.cap
    ensures lease.fns == if admitted && cs != null && cs.cap > 0 then old(lease.fns) + [cs] else old(lease.fns)
    ensures cs != null ==> cs.cap == old(cs.cap) && cs.inFlight == old(cs.inFlight) + |lease.fns| - |old(lease.fns)|
  {
    if cs == null { return true; }
    var limit := cs.cap;
    if limit <= 0 { return true; }
    var cur := cs.inFlight;
    if cur >= limit { return false; }
    cs.inFlight := cur + 1;
    lease.OnRelease(cs);
    return true;
  }

  /** Acquiring on a new lease and releasing it leaves the counter as it was. */
  method RoundTrip(cs: ConcState) returns (admitted: bool)
    modifies cs
    ensures cs.inFlight == old(cs.inFlight) && cs.cap == old(cs.cap)
    ensures admitted <==> cs.cap <= 0 || cs.inFlight < cs.cap
  {
    var lease := new Lease();
    admitted := AcquireConcurrency(cs, lease);
    lease.Release();
    lease.Release();
  }
}
