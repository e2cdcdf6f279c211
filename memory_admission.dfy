/**
 * Host memory admission (`check_free_ram`): walk the pool's hosts in the
 * order given (the source shuffles them first) and settle on the first
 * live host whose free memory covers the request plus its overhead while
 * leaving the host's reserved share untouched.
 */
module MemoryAdmission {
  import opened Wrappers
  import opened Xen
  import opened RubyCollections

  /** The request scaled by the overhead factor `(100 + overheadPct) / 100`. */
  function EffectiveRequest(ram: int, overheadPct: real): real {
    ram as real * ((100.0 + overheadPct) / 100.0)
  }

  /** The share of a host's memory kept free: `memoryTotal * (100 - maxUtilPct) / 100`. */
  function ReservedMemory(h: Host, maxUtilPct: real): real {
    h.memoryTotal as real * ((100.0 - maxUtilPct) / 100.0)
  }

  /** The memory test of `check_free_ram`, in exact arithmetic. */
  predicate HasEnoughMemory(h: Host, ram: int, overheadPct: real, maxUtilPct: real) {
    h.memoryFree as real - EffectiveRequest(ram, overheadPct) >= ReservedMemory(h, maxUtilPct)
  }

  /** A host `check_free_ram` would accept: up, and with enough memory. */
  predicate Eligible(h: Host, ram: int, overheadPct: real, maxUtilPct: real) {
    h.live && HasEnoughMemory(h, ram, overheadPct, maxUtilPct)
  }

  /**
   * The host chosen when the hosts are visited in the order given: the
   * first eligible one; none exactly when no host is eligible.
   */
  function HomeServer(hosts: seq<Host>, ram: int, overheadPct: real, maxUtilPct: real): (r: Option<Host>)
    ensures r.Some? ==> r.value.live && HasEnoughMemory(r.value, ram, overheadPct, maxUtilPct)
    ensures r.Some? ==> exists i :: 0 <= i < |hosts| && hosts[i] == r.value
                          && forall j :: 0 <= j < i ==> !Eligible(hosts[j], ram, overheadPct, maxUtilPct)
    ensures r.None? <==> forall i :: 0 <= i < |hosts| ==> !Eligible(hosts[i], ram, overheadPct, maxUtilPct)
  {
    match FindFirst(hosts, h => Eligible(h, ram, overheadPct, maxUtilPct))
    case None => None
    case Some(i) => Some(hosts[i])
  }

  /** `check_free_ram`: the loop over the hosts, returning from inside it on the first fit. */
  method CheckFreeRam(hosts: seq<Host>, ram: int, overheadPct: real, maxUtilPct: real) returns (home: Option<Host>)
    ensures home == HomeServer(hosts, ram, overheadPct, maxUtilPct)
  {
    var overheadFactor := (100.0 + overheadPct) / 100.0;
    var reservedMemoryPct := (100.0 - maxUtilPct) / 100.0;
    var i := 0;
    while i < |hosts|
      invariant 0 <= i <= |hosts|
      invariant forall j :: 0 <= j < i ==> !Eligible(hosts[j], ram, overheadPct, maxUtilPct)
    {
      var m := hosts[i];
      if !m.live {
        i := i + 1;
        continue;
      }
      var reservedMemory := m.memoryTotal as real * reservedMemoryPct;
      if m.memoryFree as real - ram as real * overheadFactor >= reservedMemory {
        assert Eligible(hosts[i], ram, overheadPct, maxUtilPct);
        return Some(m);
      }
      i := i + 1;
    }
    return None;
  }

  /** Whether some host is admitted does not depend on the order the hosts are visited in. */
  lemma AdmissionIgnoresOrder(hosts: seq<Host>, shuffled: seq<Host>, ram: int, overheadPct: real, maxUtilPct: real)
    requires multiset(hosts) == multiset(shuffled)
    ensures HomeServer(hosts, ram, overheadPct, maxUtilPct).Some?
        <==> HomeServer(shuffled, ram, overheadPct, maxUtilPct).Some?
  {
    forall xs: seq<Host>, ys: seq<Host>, i | multiset(xs) == multiset(ys) && 0 <= i < |xs|
        && Eligible(xs[i], ram, overheadPct, maxUtilPct)
      ensures HomeServer(ys, ram, overheadPct, maxUtilPct).Some?
    {
      assert xs[i] in multiset(ys);
      var j :| 0 <= j < |ys| && ys[j] == xs[i];
    }
  }

  /** A host that has room for a request has room for any smaller one. */
  lemma AdmissionMonotone(h: Host, ram: int, smaller: int, overheadPct: real, maxUtilPct: real)
    requires overheadPct >= -100.0 && smaller <= ram
    requires Eligible(h, ram, overheadPct, maxUtilPct)
    ensures Eligible(h, smaller, overheadPct, maxUtilPct)
  {
    var f := (100.0 + overheadPct) / 100.0;
    assert f >= 0.0;
    assert (ram - smaller) as real * f >= 0.0;
    assert EffectiveRequest(ram, overheadPct) - EffectiveRequest(smaller, overheadPct) == (ram - smaller) as real * f;
  }

  /** A host with 32 GiB, 20 GiB of it free, takes a 4 GiB request with the default margins (5 GiB effective, 1.6 GiB reserved). */
  lemma DefaultMarginsExample()
    ensures Eligible(Host("xen1", true, 32 * GiB, 20 * GiB), 4 * GiB, 25.0, 95.0)
    ensures !Eligible(Host("xen2", false, 32 * GiB, 20 * GiB), 4 * GiB, 25.0, 95.0)
  {
  }
}
