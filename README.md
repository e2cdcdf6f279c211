# knife-xenserver `vm create`: admission, disks, NICs and guest network data

`knife xenserver vm create` clones a XenServer template into a new VM. The
command has a capacity gate and a set of provisioning steps, and this Dafny
project models both and proves what they guarantee.

The gate runs before anything is created:
- a home server with enough free memory must exist;
- the template's disks must fit on their storage repositories (SRs);
- the disks asked for with `--extra-vdis` must fit too.

The checks run in that order, and the first one that fails stops the
command.

After the VM exists, the command:
- creates the requested network interfaces (VIFs), numbering them above the
  VM's existing devices;
- writes the guest network settings into xenstore;
- creates and attaches the extra VDIs. It keeps a device counter for them
  and retries each attach once.

The modules follow the Ruby file's structure:

- `Xen`: the read-only pool snapshot (hosts, SRs, networks), the errors the command raises, and the five configuration percentages (defaults 25, 95, 80, 100 and 100).
- `RubyStrings`, `RubyCollections`: the Ruby core behaviour the code relies on.
  - `strip`, `chomp` and `split`. `split` drops trailing empty fields.
  - `to_i`, `Enumerable#find`, and a Hash of totals that keeps insertion order.
- `MemoryAdmission`: `check_free_ram`.
- `StorageAdmission`: `check_free_disk_space` and `check_multi_free_disk_space`.
- `ExtraVdis`: parsing `--extra-vdis` and `check_free_disk_space_extra_vdis`.
- `TemplateDisks`: `check_free_disk_space_template`. It starts from the template's VBDs, already read as (type, SR name, virtual size).
- `VmCreate`: the three `raise ... unless` lines of `run`.
- `VdiAttach`: `create_extra_vdis`. It records the hypervisor calls as a log of effects: VDI creation, attach attempts and destroy.
- `Nics`: `create_nics`.
- `GuestNetwork`: the gateway derivation, the `||=` defaults and the xenstore hash.

The hypervisor is a parameter. A VBD attach attempt succeeds or fails as an oracle `fails(k, attempt)` says, for entry `k` and attempt 0 or 1. Every loop of the modelled operations is a `method` with a `while` loop. Each is proved equal to a recursive specification function, and the properties are lemmas about those functions.

## Model

| member | source | states |
|---|---|---|
| MemoryAdmission.HomeServer | lib/chef/knife/xenserver_vm_create.rb:565-597 | The chosen host is live and has enough memory. It is the first eligible host in the order visited. There is none exactly when no host is eligible. |
| MemoryAdmission.CheckFreeRam | lib/chef/knife/xenserver_vm_create.rb:565-597 | The loop over the hosts, skipping down hosts and returning the first fit, returns `HomeServer`. |
| MemoryAdmission.AdmissionIgnoresOrder | lib/chef/knife/xenserver_vm_create.rb:575 | Whether some host is admitted does not depend on the order of `hosts.shuffle`: any permutation gives the same yes/no. |
| MemoryAdmission.AdmissionMonotone | lib/chef/knife/xenserver_vm_create.rb:588 | A host that can take a request can take any smaller one. |
| MemoryAdmission.DefaultMarginsExample | lib/chef/knife/xenserver_vm_create.rb:569-588 | With the default margins, a live 32 GiB host with 20 GiB free takes 4 GiB. A down host is never eligible. |
| StorageAdmission.CheckFreeDiskSpace | lib/chef/knife/xenserver_vm_create.rb:544-563 | The SR passes iff `100 * (utilisation + size*allocation/100) <= limit * physical_size`. Landing exactly on the limit passes. The zero-size float division is covered. |
| StorageAdmission.FindSr | lib/chef/knife/xenserver_vm_create.rb:533 | The first SR with that name, or none exactly when no SR has it. |
| StorageAdmission.ResolveKey | lib/chef/knife/xenserver_vm_create.rb:529-534 | The key `default` is the pool's default SR. Any other key is looked up by name. |
| StorageAdmission.MultiVerdict | lib/chef/knife/xenserver_vm_create.rb:526-542 | It raises iff some key does not resolve, naming the first such key. Otherwise it is true iff every SR passes its total. |
| StorageAdmission.CheckMultiFreeDiskSpace | lib/chef/knife/xenserver_vm_create.rb:526-542 | The `each_pair` loop with `retval &&= check` and the early raise returns `MultiVerdict`. |
| StorageAdmission.SingleRepositoryExamples | lib/chef/knife/xenserver_vm_create.rb:544-563 | 70 GiB used plus 20 GiB on a 100 GiB SR under an 80% limit fails. 60 GiB used passes. |
| StorageAdmission.CheckFreeDiskSpaceMonotone | lib/chef/knife/xenserver_vm_create.rb:551-555 | A passing SR still passes for any smaller request. |
| ExtraVdis.ParseEntry | lib/chef/knife/xenserver_vm_create.rb:475-487 | Any failure to parse is "Invalid VDI size". |
| ExtraVdis.ParseNamedEntry | lib/chef/knife/xenserver_vm_create.rb:479-480 | `sr:digits` with a colon-free name parses to that SR and that size. |
| ExtraVdis.ParseFormatEntry | lib/chef/knife/xenserver_vm_create.rb:479-487 | Round trip: parsing the command-line form of any spec gives the spec back. |
| ExtraVdis.ParseEntryReadsWholeSize | lib/chef/knife/xenserver_vm_create.rb:479-490 | For both entry shapes (`sr:size` split on `:`, or a bare size), the entry is accepted iff its `size` field is present and all digits. `to_i` then reads exactly that size, and the SR is the entry's `sr` field. |
| ExtraVdis.ParseEntries | lib/chef/knife/xenserver_vm_create.rb:475-487 | The list parses iff every entry does, entry by entry. Otherwise the error is "Invalid VDI size". |
| ExtraVdis.ExtraVdiTotalsMeaning | lib/chef/knife/xenserver_vm_create.rb:477-498 | `total_sr_bsize` has distinct keys and one key per SR named (or `default`). Each total is that key's summed MiB times 1024*1024. |
| ExtraVdis.TotalExtraVdiSizes | lib/chef/knife/xenserver_vm_create.rb:475-498 | The parse-and-total loop returns the totals, or the parse error of the first bad entry. |
| ExtraVdis.TotalEntries | lib/chef/knife/xenserver_vm_create.rb:478-498 | The same loop over already split entries. |
| ExtraVdis.ExtraVdiVerdict | lib/chef/knife/xenserver_vm_create.rb:466-501 | With no option it passes. Its only errors are "Invalid VDI size" and an unknown SR. |
| ExtraVdis.CheckFreeDiskSpaceExtraVdis | lib/chef/knife/xenserver_vm_create.rb:466-501 | The method returns `ExtraVdiVerdict`. |
| ExtraVdis.ExtraVdiVerdictMeaning | lib/chef/knife/xenserver_vm_create.rb:466-501 | A malformed option gives "Invalid VDI size". Otherwise it raises iff some key does not resolve, and passes iff every SR key passes. |
| ExtraVdis.BareSizeExample | lib/chef/knife/xenserver_vm_create.rb:481-493 | "20" asks for 20 MiB under the key `default`. |
| ExtraVdis.NamedSizeExample | lib/chef/knife/xenserver_vm_create.rb:479-497 | "mysr:20" asks for 20 MiB on "mysr". |
| ExtraVdis.NonNumericExample | lib/chef/knife/xenserver_vm_create.rb:485-487 | "abc" is rejected as "Invalid VDI size". |
| ExtraVdis.ParseEntryAsWritten | lib/chef/knife/xenserver_vm_create.rb:479-490 | The source's own size test, `=~ /^\d+$/` (which holds if any line is digits), followed by `to_i`. |
| ExtraVdis.LineAnchoredSizeTest | lib/chef/knife/xenserver_vm_create.rb:485-490 | "x\n20" and "-3\n5" pass the source's test and read as sizes 0 and -3. The digits-only test rejects both. |
| TemplateDisks.TemplateTotalsMeaning | lib/chef/knife/xenserver_vm_create.rb:513-521 | The template hash has distinct keys, one per SR holding a disk. Each total is the virtual size of that SR's disks. Non-disk VBDs count for nothing. |
| TemplateDisks.TotalTemplateDisks | lib/chef/knife/xenserver_vm_create.rb:513-521 | The loop with `next unless vbd.type == 'Disk'` returns the grouped disk sizes. |
| TemplateDisks.TemplateVerdict | lib/chef/knife/xenserver_vm_create.rb:503-524 | Its only error is an unknown SR. |
| TemplateDisks.CheckFreeDiskSpaceTemplate | lib/chef/knife/xenserver_vm_create.rb:503-524 | The method returns `TemplateVerdict`. |
| TemplateDisks.TemplateVerdictMeaning | lib/chef/knife/xenserver_vm_create.rb:503-524 | It raises iff a disk lives on an unresolvable SR. Otherwise it passes iff every SR holding a disk can take its total. |
| VmCreate.GateMeaning | lib/chef/knife/xenserver_vm_create.rb:235-238 | The gate admits iff all three checks pass, and then returns the home server. It reports the memory shortage exactly when there is no home server. |
| VmCreate.Admit | lib/chef/knife/xenserver_vm_create.rb:235-238 | Memory, then template, then extra VDIs, each raising on failure. The method returns `AdmissionOutcome`. |
| VmCreate.AdmissionMeaning | lib/chef/knife/xenserver_vm_create.rb:235-238 | A VM is admitted iff some live host has room and both disk checks pass. The home server is then `HomeServer`'s host. "Not enough RAM" is reported iff no host has room. |
| VmCreate.NoExtraVdisAdmission | lib/chef/knife/xenserver_vm_create.rb:466-468 | Without `--extra-vdis`, neither the extra-VDI shortage nor a size error can be raised. |
| VdiAttach.VdiRepository | lib/chef/knife/xenserver_vm_create.rb:387-400 | A bare size goes to the pool's default SR (an error if unset). A named SR is the first SR with that name, or raises "Storage Repository ... not available". |
| VdiAttach.Prepare | lib/chef/knife/xenserver_vm_create.rb:375-400 | An entry is parsed, then its SR is found. The first failure is the error, before anything is created. |
| VdiAttach.CreateExtraVdis | lib/chef/knife/xenserver_vm_create.rb:366-430 | The whole method produces the calls and error of `ExtraVdisOutcome`, and nothing without the option. |
| VdiAttach.CreateEntries | lib/chef/knife/xenserver_vm_create.rb:369-429 | The `vdis.each` loop with its counter produces `Run` from entry 0 with counter 0. |
| VdiAttach.CreateEntry | lib/chef/knife/xenserver_vm_create.rb:373-428 | One turn of the loop is `Step`: bump, parse, find the SR, create the VDI, attach. |
| VdiAttach.AttachVbdWithRetry | lib/chef/knife/xenserver_vm_create.rb:411-428 | The `2.times` retry: attach on `count`; after one refusal bump the counter and retry; after two, destroy and give up. |
| VdiAttach.ExtraVdiDevices | lib/chef/knife/xenserver_vm_create.rb:369-428 | Each attach uses device `creates + refusals so far`. Devices strictly increase, and the n-th VDI lands on device n or later. |
| VdiAttach.ExtraVdiAttempts | lib/chef/knife/xenserver_vm_create.rb:411-428 | No VDI is attached more than twice. |
| VdiAttach.ExtraVdiDestroy | lib/chef/knife/xenserver_vm_create.rb:419-425 | A VDI is destroyed only as the last call, right after its two refused attempts on consecutive devices, and the error is then raised. |
| VdiAttach.ExtraVdiCompletion | lib/chef/knife/xenserver_vm_create.rb:369-429 | The command finishes iff every entry parses, resolves and attaches, with one VDI created and attached per entry. Otherwise it stops at the first entry that does not, with that entry's error and the VDIs created up to it. |
| VdiAttach.BumpedDeviceExample | lib/chef/knife/xenserver_vm_create.rb:403-428 | One refused first attempt moves the first VDI to device 2. The second VDI is then named and attached as number 3. |
| Nics.NicRequests | lib/chef/knife/xenserver_vm_create.rb:433-440 | One request per network name. |
| Nics.PairMacs | lib/chef/knife/xenserver_vm_create.rb:433-440 | Building `net_arr` and pairing the MACs gives `NicRequests`. |
| Nics.AssignMacs | lib/chef/knife/xenserver_vm_create.rb:436-437 | The `each_index` loop puts each non-empty MAC on its network. |
| Nics.HighestDevice | lib/chef/knife/xenserver_vm_create.rb:442-443 | The result is at least every existing device's `to_i` and at least -1. It is -1 or one of them. |
| Nics.HighestExistingDevice | lib/chef/knife/xenserver_vm_create.rb:442-443 | The loop returns `HighestDevice`. |
| Nics.FindNetworkSpec | lib/chef/knife/xenserver_vm_create.rb:446 | `networks.find` returns the first network with the name, or none exactly when none has it. |
| Nics.CreateNics | lib/chef/knife/xenserver_vm_create.rb:432-464 | The whole method produces the VIFs and error of `NicsOutcome`. |
| Nics.CreateVifs | lib/chef/knife/xenserver_vm_create.rb:444-463 | The `nics.each` loop produces `CreateFrom` from request 0. |
| Nics.NicAt | lib/chef/knife/xenserver_vm_create.rb:445-462 | The i-th VIF is the record for the i-th network name, numbered i+1. |
| Nics.NicDevices | lib/chef/knife/xenserver_vm_create.rb:442-456 | VIF i gets device `highest + i + 1`. That is above every existing device, and devices strictly increase. |
| Nics.NicMacs | lib/chef/knife/xenserver_vm_create.rb:452-455 | `MAC_autogenerated` is "True" iff no MAC was given for that NIC. `MAC` is the given address or "". |
| Nics.NicNetworks | lib/chef/knife/xenserver_vm_create.rb:446-454 | Each VIF belongs to the VM and references the first network with the requested name. |
| Nics.NicErrors | lib/chef/knife/xenserver_vm_create.rb:445-449 | It finishes iff every name exists, with one VIF per name. Otherwise it raises "Network ... not found" for the first missing name, after creating the VIFs before it. |
| GuestNetwork.TrailingDigits | lib/chef/knife/xenserver_vm_create.rb:216 | The longest all-digit suffix. |
| GuestNetwork.PatternMatchesFinalOctet | lib/chef/knife/xenserver_vm_create.rb:216 | On a line, `\.\d+$` matches exactly once, at the final dot followed by digits to the end, or not at all. |
| GuestNetwork.ReplaceLineOctetMeaning | lib/chef/knife/xenserver_vm_create.rb:216 | With no match the line is unchanged. Otherwise everything before the match is kept and `.octet` follows. |
| GuestNetwork.ReplaceLineOctetOfAddress | lib/chef/knife/xenserver_vm_create.rb:216 | `prefix.digits` becomes `prefix.octet`. |
| GuestNetwork.ReplaceLastOctetsSingleLine | lib/chef/knife/xenserver_vm_create.rb:216 | A string without line feeds is one line for `gsub`. |
| GuestNetwork.ReplaceLastOctetsIdempotent | lib/chef/knife/xenserver_vm_create.rb:216 | Applying the substitution twice with a numeric octet is the same as once. |
| GuestNetwork.GatewayDerivedFromIp | lib/chef/knife/xenserver_vm_create.rb:213-218 | With no gateway and a one-line IP `prefix.digits`, the gateway is `prefix.last_octet`. |
| GuestNetwork.DefaultGatewayExample | lib/chef/knife/xenserver_vm_create.rb:213-218 | "10.0.0.5" with the default octet 1 gets gateway "10.0.0.1". |
| GuestNetwork.ApplyDefaultsMeaning | lib/chef/knife/xenserver_vm_create.rb:213-222 | Given options are kept. Missing ones are filled: the gateway from the IP, the rest from the configuration. |
| GuestNetwork.ApplyDefaultsIdempotent | lib/chef/knife/xenserver_vm_create.rb:213-222 | Defaulting twice is the same as once. |
| GuestNetwork.XenstoreRoundTrip | lib/chef/knife/xenserver_vm_create.rb:262-267 | Reading the xenstore hash back gives the options. A key is present iff its option is set. |
| GuestNetwork.XenstoreKeys | lib/chef/knife/xenserver_vm_create.rb:262-267 | At most five entries, each key one of `vm-data/ip`, `/gw`, `/nm`, `/ns` and `/dm`, and no key twice. |
| GuestNetwork.Put | lib/chef/knife/xenserver_vm_create.rb:262-266 | One `(attrs[key] = value) if value` line, on a hash that does not hold `key` yet: the pair is appended exactly when the option is set, and the hash is unchanged otherwise. |
| GuestNetwork.XenstoreData | lib/chef/knife/xenserver_vm_create.rb:262-271 | Nothing is written iff no option is set. Otherwise the hash written is `XenstoreAttrs`. |
| RubyStrings.Strip | lib/chef/knife/xenserver_vm_create.rb:371 | The result has no white space at either end and is a slice of the input with only white space cut off. |
| RubyStrings.ChompAfterStrip | lib/chef/knife/xenserver_vm_create.rb:371 | `chomp` after `strip` changes nothing. |
| RubyStrings.JoinSplitAll | lib/chef/knife/xenserver_vm_create.rb:371 | Joining the fields of a split gives the string back. |
| RubyStrings.SplitJoin | lib/chef/knife/xenserver_vm_create.rb:376 | `split` recovers separator-free fields whose last one is not empty. |
| RubyStrings.DecimalStringValue | lib/chef/knife/xenserver_vm_create.rb:403 | `to_s` of a count reads back as that count. |
| RubyStrings.ToIOfDigits | lib/chef/knife/xenserver_vm_create.rb:385 | `to_i` of a digit string is its value. |
| RubyCollections.FindFirst | lib/chef/knife/xenserver_vm_create.rb:395 | `find` returns the first match, or none exactly when nothing matches. |
| RubyCollections.GroupSpec | lib/chef/knife/xenserver_vm_create.rb:492-497 | `h[k] ||= 0; h[k] += n` over a list gives distinct keys, one per key seen, each holding that key's sum. |
| RubyCollections.AddKeepsOrder | lib/chef/knife/xenserver_vm_create.rb:519-520 | An existing key keeps its place; a new key goes last. |

## Left out

- Readiness polling is not modelled: `wait_for_ip`-style guest metrics polling, `tcp_test_ssh` and its sockets, sleeps and timeouts. They are timing and network I/O.
- The bootstrap started after the VM is up (`bootstrap_for_node`) is left out. It hands over to another command.
- Console output is dropped: `puts`, `ui.warn` and `ui.error`, and their format strings and GiB rounding.
- The Fog calls themselves are not modelled. Creating the VM, `save`, `provision`, `start` and `reload` are left out. Destroying the template's VIFs when `--keep-template-networks` is unset is left out. The `memory_limits`, `VCPUs_max`, `VCPUs_at_startup` and `tags` attributes are left out. So are template lookup by name or UUID and the `--vm-name`/`--vm-template` presence checks. These are state of the hypervisor that no property here depends on.
- What the hypervisor does is not modelled. The parts that matter become parameters:
  - the snapshot of hosts, SRs and networks;
  - the existing devices;
  - the attach oracle;
  - the effect log the model returns.
  A failure of `vdi.destroy` is swallowed by the source and is not represented.
- Reading the template's last booted record with Nokogiri is not modelled. The model starts from the VBDs already extracted as (type, SR name, virtual size).
- `MemoryAdmission.CheckFreeRam`: the host list is taken in the order given. The source visits `hosts.shuffle`, an arbitrary order. `AdmissionIgnoresOrder` shows that whether some host fits does not depend on it.
- The percentages are exact `real` numbers; Ruby `Float` rounding is not modelled. `StorageAdmission.CheckFreeDiskSpace` takes the allocation percentage as a real. If an allocation setting were configured as a Ruby Integer, `allocation/100` would be an integer division; the defaults are Floats. Byte counts are unbounded naturals. The source's `virtual_size.to_i` is therefore a `nat`.
- `RubyStrings.ToI` does not model underscores between digits, which `String#to_i` accepts. No size the digits-only test accepts contains one.
- `ExtraVdis.ParseEntryAsWritten` inherits that gap. The source's line-anchored test accepts `"1_0\n5"`, because its second line is all digits. Ruby's `to_i` reads that string as 10, while the model reads 1.
- `GuestNetwork.ReplaceLastOctets` treats the replacement text literally. Ruby's `gsub` would expand backslash sequences in it, so the model differs only when the configured last octet contains a backslash.
- The VIF fields `other_config` and `qos_algorithm_params` are always empty hashes in the source and are not represented.
- `pools.first` being nil (a pool list with no pool) is not modelled. The first pool's default SR is a field of the snapshot, possibly unset.
- `ExtraVdis.ParseEntry`, and with it `ExtraVdis.ExtraVdiVerdict`, `ExtraVdis.CheckFreeDiskSpaceExtraVdis`, `VmCreate.Admit`, `VdiAttach.Prepare` and `VdiAttach.CreateExtraVdis`: these use the intended digits-only size test (`\A\d+\z`), not the source's line-anchored `/^\d+$/`. They reject an entry such as "x\n20", which the source accepts and sizes at 0 MiB. `ExtraVdis.ParseEntryAsWritten` models the test as written; see "## Findings".
- `VdiAttach.VdiRepository`: here `create_extra_vdis` differs from `check_multi_free_disk_space`. It looks up an SR literally named "default" for an entry `default:20`, while the disk-space check counts that entry under the pool's default SR. The model keeps both behaviours as written.

## Findings

| source | as written | input that shows it | evidently intended | confidence | as-written member | corrected member |
|---|---|---|---|---|---|---|
| lib/chef/knife/xenserver_vm_create.rb:381, :485 | `size =~ /^\d+$/` is anchored per line: one line of digits anywhere in the size passes it, and `size.to_i` then reads the start of the string | `--extra-vdis "x\n20"` passes and asks for 0 MiB; `"-3\n5"` passes and asks for -3 MiB | only a string of decimal digits is a size (`\A\d+\z`), and `to_i` reads exactly those digits | not executed | ExtraVdis.LineAnchoredSizeTest | ExtraVdis.ParseEntryReadsWholeSize |
