/**
 * The admission gate of `vm create`: before anything is created, a home
 * server with enough free memory must exist, the template's disks must fit
 * and so must the extra VDIs, checked in that order.
 */
module VmCreate {
  import opened Wrappers
  import opened Xen
  import opened RubyStrings
  import opened MemoryAdmission
  import opened StorageAdmission
  import opened ExtraVdis
  import opened TemplateDisks

  /** `config[:vm_memory].to_i * 1024 * 1024`: the `--vm-memory` value (MiB, "512" by default) in bytes. */
  function RequestedRam(vmMemory: string): int {
    ToI(vmMemory) * MiB as int
  }

  /**
   * The three `raise ... unless` lines, given what each check returned:
   * the home server, or the error of the first check that fails.
   */
  function Gate(affinity: Option<Host>, template: Result<bool, Error>, extra: Result<bool, Error>): Result<Host, Error> {
    match affinity
    case None => Err(NotEnoughRam)
    case Some(home) =>
      match template
      case Err(e) => Err(e)
      case Ok(false) => Err(NotEnoughDiskForTemplate)
      case Ok(true) =>
        match extra
        case Err(e) => Err(e)
        case Ok(false) => Err(NotEnoughDiskForExtraVdis)
        case Ok(true) => Ok(home)
  }

  /** The gate's outcome on the pool snapshot and the options of one run. */
  function AdmissionOutcome(hosts: seq<Host>, vmMemory: string, vbds: seq<Vbd>, extraVdis: Option<string>,
                            storage: Storage, s: Settings): Result<Host, Error>
  {
    Gate(HomeServer(hosts, RequestedRam(vmMemory), s.ramOverheadPct, s.hostMaxRamUtilisationPct),
         TemplateVerdict(vbds, storage, s.templateAllocationPct, s.maxStorageAllocatedPct),
         ExtraVdiVerdict(extraVdis, storage, s.additionalAllocationPct, s.maxStorageAllocatedPct))
  }

  /**
   * The gate admits exactly when all three checks pass, returns the
   * affinity then, and reports a missing home server before anything else
   * (no disk check ever reports a memory shortage).
   */
  lemma GateMeaning(affinity: Option<Host>, template: Result<bool, Error>, extra: Result<bool, Error>)
    requires template.Err? ==> template.error != NotEnoughRam
    requires extra.Err? ==> extra.error != NotEnoughRam
    ensures Gate(affinity, template, extra).Ok? <==> affinity.Some? && template == Ok(true) && extra == Ok(true)
    ensures Gate(affinity, template, extra).Ok? ==> Gate(affinity, template, extra).value == affinity.value
    ensures Gate(affinity, template, extra) == Err(NotEnoughRam) <==> affinity.None?
  {
  }

  /** The three checks of `run`, each raising when it fails. */
  method Admit(hosts: seq<Host>, vmMemory: string, vbds: seq<Vbd>, extraVdis: Option<string>, storage: Storage, s: Settings)
    returns (r: Result<Host, Error>)
    ensures r == AdmissionOutcome(hosts, vmMemory, vbds, extraVdis, storage, s)
  {
    var affinity := CheckFreeRam(hosts, RequestedRam(vmMemory), s.ramOverheadPct, s.hostMaxRamUtilisationPct);
    if affinity.None? {
      return Err(NotEnoughRam);
    }
    var template := CheckFreeDiskSpaceTemplate(vbds, storage, s.templateAllocationPct, s.maxStorageAllocatedPct);
    if template.Err? {
      return Err(template.error);
    }
    if !template.value {
      return Err(NotEnoughDiskForTemplate);
    }
    var extra := CheckFreeDiskSpaceExtraVdis(extraVdis, storage, s.additionalAllocationPct, s.maxStorageAllocatedPct);
    if extra.Err? {
      return Err(extra.error);
    }
    if !extra.value {
      return Err(NotEnoughDiskForExtraVdis);
    }
    return Ok(affinity.value);
  }

  /**
   * A VM is admitted exactly when a live host has room for the memory and
   * both disk checks pass; its home server is then the first such host in
   * the (shuffled) host order; and a memory shortage is reported, before
   * any disk problem is looked at, exactly when no host has room.
   */
  lemma AdmissionMeaning(hosts: seq<Host>, vmMemory: string, vbds: seq<Vbd>, extraVdis: Option<string>, storage: Storage, s: Settings)
    ensures var r := AdmissionOutcome(hosts, vmMemory, vbds, extraVdis, storage, s);
            var ram := RequestedRam(vmMemory);
            && (r.Ok? <==> && (exists i :: 0 <= i < |hosts| && Eligible(hosts[i], ram, s.ramOverheadPct, s.hostMaxRamUtilisationPct))
                           && TemplateVerdict(vbds, storage, s.templateAllocationPct, s.maxStorageAllocatedPct) == Ok(true)
                           && ExtraVdiVerdict(extraVdis, storage, s.additionalAllocationPct, s.maxStorageAllocatedPct) == Ok(true))
            && (r.Ok? ==> r.value == HomeServer(hosts, ram, s.ramOverheadPct, s.hostMaxRamUtilisationPct).value)
            && (r == Err(NotEnoughRam) <==> forall i :: 0 <= i < |hosts| ==> !Eligible(hosts[i], ram, s.ramOverheadPct, s.hostMaxRamUtilisationPct))
  {
    var home := HomeServer(hosts, RequestedRam(vmMemory), s.ramOverheadPct, s.hostMaxRamUtilisationPct);
    var t := TemplateVerdict(vbds, storage, s.templateAllocationPct, s.maxStorageAllocatedPct);
    var x := ExtraVdiVerdict(extraVdis, storage, s.additionalAllocationPct, s.maxStorageAllocatedPct);
    GateMeaning(home, t, x);
  }

  /** Without extra VDIs, the extra-VDI check never stands in the way. */
  lemma NoExtraVdisAdmission(hosts: seq<Host>, vmMemory: string, vbds: seq<Vbd>, storage: Storage, s: Settings)
    ensures var r := AdmissionOutcome(hosts, vmMemory, vbds, None, storage, s);
            r != Err(NotEnoughDiskForExtraVdis) && r != Err(InvalidVdiSize)
  {
  }
}
