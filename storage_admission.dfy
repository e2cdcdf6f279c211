/**
 * Storage admission: `check_free_disk_space` for one storage repository
 * and `check_multi_free_disk_space` for a hash of per-repository byte
 * totals.
 */
module StorageAdmission {
  import opened Wrappers
  import opened Xen
  import opened RubyCollections

  /** `physical_utilisation + size * (allocation / 100)`: what the SR would hold once the request is counted. */
  function ProjectedUtilisation(sr: StorageRepository, size: nat, allocationPct: real): real {
    sr.physicalUtilisation as real + size as real * (allocationPct / 100.0)
  }

  /**
   * `check_free_disk_space`: the request passes unless the projected
   * utilisation, as a percentage of the SR's physical size, exceeds the
   * limit; reaching the limit exactly is allowed.
   */
  function CheckFreeDiskSpace(sr: StorageRepository, size: nat, allocationPct: real, limitPct: real): (ok: bool)
    ensures ok <==> 100.0 * ProjectedUtilisation(sr, size, allocationPct) <= limitPct * sr.physicalSize as real
  {
    var physicalUtilisation := ProjectedUtilisation(sr, size, allocationPct);
    if sr.physicalSize == 0 then
      // Dividing by a zero float size gives +Infinity for a positive
      // numerator, which exceeds any limit; NaN (numerator 0) and
      // -Infinity (negative numerator) compare false against it.
      !(physicalUtilisation > 0.0)
    else
      var utilizationPct := physicalUtilisation / sr.physicalSize as real * 100.0;
      assert utilizationPct * sr.physicalSize as real == 100.0 * physicalUtilisation;
      !(utilizationPct > limitPct)
  }

  /** `storage_repositories.find { |s| s.name == name }`: the first SR with that name. */
  function FindSr(srs: seq<StorageRepository>, name: string): (r: Option<StorageRepository>)
    ensures r.Some? ==> r.value.name == name
                        && exists i :: 0 <= i < |srs| && srs[i] == r.value
                                       && forall j :: 0 <= j < i ==> srs[j].name != name
    ensures r.None? <==> forall i :: 0 <= i < |srs| ==> srs[i].name != name
  {
    match FindFirst(srs, (s: StorageRepository) => s.name == name)
    case None => None
    case Some(i) => Some(srs[i])
  }

  /**
   * The SR a request key stands for in `check_multi_free_disk_space`:
   * the key `default` is always the pool's default SR (whatever SR may
   * be named "default"); any other key is an SR name.
   */
  function ResolveKey(storage: Storage, key: string): (r: Option<StorageRepository>)
    ensures key == "default" ==> r == storage.defaultSr
    ensures key != "default" ==> r == FindSr(storage.repositories, key)
  {
    if key == "default" then storage.defaultSr else FindSr(storage.repositories, key)
  }

  /**
   * The outcome of `check_multi_free_disk_space` on `requests` in hash
   * order: an error naming the first key that resolves to no SR, raised
   * whatever the SRs before it gave; otherwise whether every SR passes.
   */
  function MultiVerdict(requests: Totals, storage: Storage, allocationPct: real, limitPct: real): (r: Result<bool, Error>)
    ensures r.Err? <==> exists i :: 0 <= i < |requests| && ResolveKey(storage, requests[i].0).None?
    ensures r.Err? ==> exists i :: 0 <= i < |requests| && ResolveKey(storage, requests[i].0).None?
                          && r.error == StorageRepositoryNotAvailable(requests[i].0)
                          && forall j :: 0 <= j < i ==> ResolveKey(storage, requests[j].0).Some?
    ensures r.Ok? ==> (r.value <==> forall i :: 0 <= i < |requests| ==>
                         CheckFreeDiskSpace(ResolveKey(storage, requests[i].0).value, requests[i].1, allocationPct, limitPct))
    decreases |requests|
  {
    if |requests| == 0 then Ok(true)
    else
      match ResolveKey(storage, requests[0].0)
      case None => Err(StorageRepositoryNotAvailable(requests[0].0))
      case Some(sr) =>
        var check := CheckFreeDiskSpace(sr, requests[0].1, allocationPct, limitPct);
        match MultiVerdict(requests[1..], storage, allocationPct, limitPct)
        case Err(e) => Err(e)
        case Ok(rest) => Ok(check && rest)
  }

  /**
   * `check_multi_free_disk_space`: every SR is checked (`retval &&= check`
   * with the check computed first), and an unknown key raises at once.
   */
  method CheckMultiFreeDiskSpace(requests: Totals, storage: Storage, allocationPct: real, limitPct: real)
    returns (r: Result<bool, Error>)
    ensures r == MultiVerdict(requests, storage, allocationPct, limitPct)
  {
    var retval := true;
    var i := 0;
    while i < |requests|
      invariant 0 <= i <= |requests|
      invariant forall j :: 0 <= j < i ==> ResolveKey(storage, requests[j].0).Some?
      invariant retval <==> forall j :: 0 <= j < i ==>
                  CheckFreeDiskSpace(ResolveKey(storage, requests[j].0).value, requests[j].1, allocationPct, limitPct)
    {
      var (srName, bsize) := requests[i];
      var sr := ResolveKey(storage, srName);
      if sr.None? {
        return Err(StorageRepositoryNotAvailable(srName));
      }
      var check := CheckFreeDiskSpace(sr.value, bsize, allocationPct, limitPct);
      retval := retval && check;
      i := i + 1;
    }
    return Ok(retval);
  }

  /**
   * A 100 GiB SR with 70 GiB used cannot take 20 GiB more under an 80%
   * limit (90%); with 60 GiB used it can, landing exactly on the limit.
   */
  lemma SingleRepositoryExamples()
    ensures !CheckFreeDiskSpace(StorageRepository("sr1", 100 * GiB, 70 * GiB, 0), 20 * GiB, 100.0, 80.0)
    ensures CheckFreeDiskSpace(StorageRepository("sr1", 100 * GiB, 60 * GiB, 0), 20 * GiB, 100.0, 80.0)
  {
  }

  /** Counting a smaller share of the request never turns a passing SR into a failing one. */
  lemma CheckFreeDiskSpaceMonotone(sr: StorageRepository, size: nat, smaller: nat, allocationPct: real, limitPct: real)
    requires smaller <= size && allocationPct >= 0.0
    requires CheckFreeDiskSpace(sr, size, allocationPct, limitPct)
    ensures CheckFreeDiskSpace(sr, smaller, allocationPct, limitPct)
  {
    assert (size - smaller) as real * (allocationPct / 100.0) >= 0.0;
  }
}
