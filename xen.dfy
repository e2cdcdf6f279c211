/**
 * The read-only snapshot of a XenServer pool that one `vm create` run
 * looks at, the errors it raises, and the deployment settings it reads
 * from the knife configuration.
 */
module Xen {
  import opened Wrappers

  const MiB: nat := 1024 * 1024
  const GiB: nat := 1024 * 1024 * 1024

  /** A pool member with its host metrics: liveness and memory in bytes. */
  datatype Host = Host(name: string, live: bool, memoryTotal: nat, memoryFree: nat)

  /** A storage repository (SR); all sizes in bytes. */
  datatype StorageRepository = StorageRepository(
    name: string,
    physicalSize: nat,
    physicalUtilisation: nat,
    virtualAllocation: nat)

  /** A network a VIF can be attached to; `reference` is its opaque hypervisor reference. */
  datatype Network = Network(name: string, reference: string)

  /** The storage side of the snapshot: the first pool's default SR (possibly unset) and every SR. */
  datatype Storage = Storage(defaultSr: Option<StorageRepository>, repositories: seq<StorageRepository>)

  /** The errors the command raises, by the condition that raises them. */
  datatype Error =
    | InvalidVdiSize                              // "Invalid VDI size. Not numeric."
    | StorageRepositoryNotAvailable(sr: string)   // "Storage Repository <sr> not available"
    | NoDefaultStorageRepository                  // the pool has no default SR where one is dereferenced
    | NetworkNotFound(network: string)            // "Network <name> not found"
    | VbdAttachFailed(vdi: string)                // the second failed attach of the extra VDI named `vdi`, re-raised
    | NotEnoughRam                                // "No enought free RAM on any of XEN Hosts"
    | NotEnoughDiskForTemplate                    // "No enought disk free space available..."
    | NotEnoughDiskForExtraVdis                   // "... available for extra VDIs..."

  /** The knobs read from the knife configuration, as percentages. */
  datatype Settings = Settings(
    ramOverheadPct: real,            // xen_vm_ram_overhead_pct
    hostMaxRamUtilisationPct: real,  // xen_host_max_ram_utilization_pct
    maxStorageAllocatedPct: real,    // xen_max_storage_allocated_pct
    templateAllocationPct: real,     // xen_use_template_allocation_pct
    additionalAllocationPct: real)   // xen_use_additional_allocation_pct

  /** The values used when the configuration leaves a knob unset. */
  const DefaultSettings := Settings(25.0, 95.0, 80.0, 100.0, 100.0)
}
