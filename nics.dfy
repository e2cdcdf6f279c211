/**
 * `create_nics`: one VIF per network named in `--vm-networks`, each paired
 * with the MAC address at the same position of `--mac-addresses` when one
 * is given there, and numbered after the highest device the VM already has.
 */
module Nics {
  import opened Wrappers
  import opened Xen
  import opened RubyStrings
  import opened RubyCollections

  /** One requested NIC: the network's name and the MAC address to use, if one was supplied. */
  datatype NicRequest = NicRequest(network: string, mac: Option<string>)

  /**
   * The VIF record handed to the hypervisor. `device` is sent as its
   * decimal string; the `other_config` and `qos_algorithm_params` entries
   * are always empty and are not represented.
   */
  datatype Vif = Vif(
    macAutogenerated: string,
    vm: string,
    network: string,
    mac: string,
    device: nat,
    mtu: string,
    qosAlgorithmType: string)

  /** `mac_arr[x] and !mac_arr[x].empty?`: a MAC address was supplied at position `x`. */
  predicate MacGiven(macArr: seq<string>, x: nat) {
    x < |macArr| && macArr[x] != ""
  }

  /** The MAC list, `macs.split(/,/)`, or no list at all. */
  function MacList(macs: Option<string>): seq<string> {
    match macs
    case None => []
    case Some(m) => Split(m, ',')
  }

  /** `net_arr` once each MAC address of `macArr` that is there and not empty has been put on its network. */
  function Paired(netArr: seq<string>, macArr: seq<string>): (r: seq<NicRequest>)
    ensures |r| == |netArr|
  {
    seq(|netArr|, x requires 0 <= x < |netArr| =>
      NicRequest(netArr[x], if MacGiven(macArr, x) then Some(macArr[x]) else None))
  }

  /** The requests `create_nics` builds before creating anything. */
  function NicRequests(networks: string, macs: Option<string>): (r: seq<NicRequest>)
    ensures |r| == |Split(networks, ',')|
  {
    Paired(Split(networks, ','), MacList(macs))
  }

  /** The highest existing device number (`vif.device.to_i`), or -1 when the VM has no VIF. */
  function HighestDevice(devices: seq<string>): (h: int)
    ensures h >= -1
    ensures forall i :: 0 <= i < |devices| ==> ToI(devices[i]) <= h
    ensures h == -1 || exists i :: 0 <= i < |devices| && ToI(devices[i]) == h
  {
    if |devices| == 0 then -1
    else
      var h := HighestDevice(devices[..|devices| - 1]);
      var d := ToI(devices[|devices| - 1]);
      if d > h then d else h
  }

  /**
   * `networks.find { |net| net.name == name }`. Written out rather than
   * through `FindFirst`, whose quantified postconditions, unfolded inside
   * every proof about the created VIFs, take those proofs past the
   * verifier's resource limit.
   */
  function FindNetwork(networks: seq<Network>, name: string): Option<Network>
  {
    if |networks| == 0 then None
    else if networks[0].name == name then Some(networks[0])
    else FindNetwork(networks[1..], name)
  }

  /** The lookup finds the first network of that name, and finds nothing exactly when there is none. */
  lemma {:induction false} FindNetworkSpec(networks: seq<Network>, name: string)
    ensures var r := FindNetwork(networks, name);
            && (r.Some? ==> exists i :: 0 <= i < |networks| && networks[i] == r.value && r.value.name == name
                                        && forall j :: 0 <= j < i ==> networks[j].name != name)
            && (r.None? <==> forall i :: 0 <= i < |networks| ==> networks[i].name != name)
  {
    if |networks| > 0 && networks[0].name != name {
      var tail := networks[1..];
      FindNetworkSpec(tail, name);
      var r := FindNetwork(networks, name);
      if r.Some? {
        var i :| 0 <= i < |tail| && tail[i] == r.value && r.value.name == name
                 && forall j :: 0 <= j < i ==> tail[j].name != name;
        assert networks[i + 1] == r.value;
        forall j | 0 <= j < i + 1 ensures networks[j].name != name {
          if j > 0 { assert networks[j] == tail[j - 1]; }
        }
      }
      if forall i :: 0 <= i < |tail| ==> tail[i].name != name {
        forall i | 0 <= i < |networks| ensures networks[i].name != name {
          if i > 0 { assert networks[i] == tail[i - 1]; }
        }
      } else {
        var i :| 0 <= i < |tail| && tail[i].name == name;
        assert networks[i + 1] == tail[i];
      }
    }
  }

  /** The record for the NIC numbered `nicCount` (1-based) on network `net`. */
  function VifFor(vmRef: string, n: NicRequest, net: Network, highest: int, nicCount: nat): Vif
    requires highest >= -1 && nicCount >= 1
  {
    Vif(if n.mac.None? then "True" else "False", vmRef, net.reference, n.mac.GetOr(""),
        (highest + nicCount) as nat, "0", "ratelimit")
  }

  /** The VIFs created, in order, and the error raised, if any. */
  datatype Created = Created(vifs: seq<Vif>, error: Option<Error>)

  /** The VIFs created for requests `k..`, and the error that stops the loop, if any. */
  function CreateFrom(vmRef: string, requests: seq<NicRequest>, k: nat, highest: int, networks: seq<Network>): Created
    requires highest >= -1
    decreases |requests| - k
  {
    if k >= |requests| then Created([], None)
    else
      match FindNetwork(networks, requests[k].network)
      case None => Created([], Some(NetworkNotFound(requests[k].network)))
      case Some(net) =>
        var rest := CreateFrom(vmRef, requests, k + 1, highest, networks);
        Created([VifFor(vmRef, requests[k], net, highest, k + 1)] + rest.vifs, rest.error)
  }

  lemma CreateFromStep(vmRef: string, requests: seq<NicRequest>, k: nat, highest: int, networks: seq<Network>, net: Network)
    requires highest >= -1 && k < |requests| && FindNetwork(networks, requests[k].network) == Some(net)
    ensures var rest := CreateFrom(vmRef, requests, k + 1, highest, networks);
            CreateFrom(vmRef, requests, k, highest, networks)
              == Created([VifFor(vmRef, requests[k], net, highest, k + 1)] + rest.vifs, rest.error)
  {
  }

  /** The VIFs `create_nics` creates, in order, and the error it raises, if any. */
  function NicsOutcome(vmRef: string, networks: string, macs: Option<string>, devices: seq<string>, available: seq<Network>): Created
  {
    CreateFrom(vmRef, NicRequests(networks, macs), 0, HighestDevice(devices), available)
  }

  /** `v` is the record for the NIC numbered `nicCount` (1-based), created for request `n`. */
  predicate VifMatches(vmRef: string, n: NicRequest, networks: seq<Network>, highest: int, nicCount: nat, v: Vif)
    requires highest >= -1 && nicCount >= 1
  {
    FindNetwork(networks, n.network).Some? && v == VifFor(vmRef, n, FindNetwork(networks, n.network).value, highest, nicCount)
  }

  /** The loop from request `k` on stops only at a request whose network does not exist, and raises for it. */
  predicate StopsAtMissingNetwork(requests: seq<NicRequest>, k: nat, networks: seq<Network>, r: Created) {
    && (r.error.None? <==> k + |r.vifs| >= |requests|)
    && (r.error.Some? ==>
          k + |r.vifs| < |requests|
          && FindNetwork(networks, requests[k + |r.vifs|].network).None?
          && r.error.value == NetworkNotFound(requests[k + |r.vifs|].network))
  }

  /** The `i`-th VIF created from request `k` on is the record for request `k + i`. */
  lemma {:induction false} CreateFromAt(vmRef: string, requests: seq<NicRequest>, k: nat, highest: int, networks: seq<Network>, i: nat)
    requires highest >= -1 && i < |CreateFrom(vmRef, requests, k, highest, networks).vifs|
    ensures k + i < |requests|
    ensures VifMatches(vmRef, requests[k + i], networks, highest, k + i + 1, CreateFrom(vmRef, requests, k, highest, networks).vifs[i])
    decreases i
  {
    assert k < |requests| && FindNetwork(networks, requests[k].network).Some?;
    var net := FindNetwork(networks, requests[k].network).value;
    CreateFromStep(vmRef, requests, k, highest, networks, net);
    var vifs := CreateFrom(vmRef, requests, k, highest, networks).vifs;
    var rest := CreateFrom(vmRef, requests, k + 1, highest, networks).vifs;
    if i == 0 {
      assert vifs[0] == VifFor(vmRef, requests[k], net, highest, k + 1);
    } else {
      assert |vifs| == 1 + |rest|;
      CreateFromAt(vmRef, requests, k + 1, highest, networks, i - 1);
      var m := k + i;
      assert (k + 1) + (i - 1) == m;
      assert requests[(k + 1) + (i - 1)] == requests[m];
      assert VifMatches(vmRef, requests[(k + 1) + (i - 1)], networks, highest, (k + 1) + (i - 1) + 1, rest[i - 1]);
      assert VifMatches(vmRef, requests[m], networks, highest, m + 1, rest[i - 1]);
      assert vifs[i] == rest[i - 1];
    }
  }

  lemma {:induction false} CreateFromStops(vmRef: string, requests: seq<NicRequest>, k: nat, highest: int, networks: seq<Network>)
    requires highest >= -1 && k <= |requests|
    ensures k + |CreateFrom(vmRef, requests, k, highest, networks).vifs| <= |requests|
    ensures StopsAtMissingNetwork(requests, k, networks, CreateFrom(vmRef, requests, k, highest, networks))
    decreases |requests| - k
  {
    if k < |requests| {
      match FindNetwork(networks, requests[k].network)
      case None =>
      case Some(net) =>
        CreateFromStops(vmRef, requests, k + 1, highest, networks);
        CreateFromStep(vmRef, requests, k, highest, networks, net);
        var rest := CreateFrom(vmRef, requests, k + 1, highest, networks);
        var r := CreateFrom(vmRef, requests, k, highest, networks);
        assert |r.vifs| == |rest.vifs| + 1 && r.error == rest.error;
        assert k + |r.vifs| == (k + 1) + |rest.vifs|;
    }
  }

  /** The i-th VIF `create_nics` creates is the record for the i-th request, numbered `i + 1`. */
  lemma NicAt(vmRef: string, networks: string, macs: Option<string>, devices: seq<string>, available: seq<Network>, i: nat)
    requires i < |NicsOutcome(vmRef, networks, macs, devices, available).vifs|
    ensures i < |NicRequests(networks, macs)|
    ensures FindNetwork(available, Split(networks, ',')[i]).Some?
    ensures NicsOutcome(vmRef, networks, macs, devices, available).vifs[i]
            == VifFor(vmRef, NicRequests(networks, macs)[i], FindNetwork(available, Split(networks, ',')[i]).value, HighestDevice(devices), i + 1)
  {
    var requests := NicRequests(networks, macs);
    var highest := HighestDevice(devices);
    CreateFromAt(vmRef, requests, 0, highest, available, i);
    assert VifMatches(vmRef, requests[i], available, highest, i + 1, CreateFrom(vmRef, requests, 0, highest, available).vifs[i]) by {
      assert 0 + i == i;
    }
    NicRequestAt(networks, macs, i);
  }

  /** Request `i` is for the `i`-th network name. */
  lemma NicRequestAt(networks: string, macs: Option<string>, i: nat)
    requires i < |Split(networks, ',')|
    ensures NicRequests(networks, macs)[i].network == Split(networks, ',')[i]
  {
  }

  /**
   * Device numbering: the i-th VIF created (1-based) gets device
   * `highest_device + i`, above every device the VM already had, so new
   * devices never collide with old ones or with each other.
   */
  lemma NicDevices(vmRef: string, networks: string, macs: Option<string>, devices: seq<string>, available: seq<Network>)
    ensures var vifs := NicsOutcome(vmRef, networks, macs, devices, available).vifs;
            && (forall i :: 0 <= i < |vifs| ==> vifs[i].device == HighestDevice(devices) + i + 1)
            && (forall i, j :: 0 <= i < |vifs| && 0 <= j < |devices| ==> vifs[i].device > ToI(devices[j]))
            && (forall i, j :: 0 <= i < j < |vifs| ==> vifs[i].device < vifs[j].device)
  {
    var vifs := NicsOutcome(vmRef, networks, macs, devices, available).vifs;
    forall i | 0 <= i < |vifs| ensures vifs[i].device == HighestDevice(devices) + i + 1 {
      NicAt(vmRef, networks, macs, devices, available, i);
    }
  }

  /**
   * MAC pairing: the i-th VIF carries the i-th MAC address when a non-empty
   * one was supplied at that position, and is marked `MAC_autogenerated`
   * "True" with an empty MAC exactly when none was.
   */
  lemma NicMacs(vmRef: string, networks: string, macs: Option<string>, devices: seq<string>, available: seq<Network>)
    ensures var vifs := NicsOutcome(vmRef, networks, macs, devices, available).vifs;
            forall i :: 0 <= i < |vifs| ==>
              && (vifs[i].macAutogenerated == "True" <==> !MacGiven(MacList(macs), i))
              && vifs[i].macAutogenerated in {"True", "False"}
              && vifs[i].mac == (if MacGiven(MacList(macs), i) then MacList(macs)[i] else "")
  {
    var vifs := NicsOutcome(vmRef, networks, macs, devices, available).vifs;
    forall i | 0 <= i < |vifs|
      ensures && (vifs[i].macAutogenerated == "True" <==> !MacGiven(MacList(macs), i))
              && vifs[i].macAutogenerated in {"True", "False"}
              && vifs[i].mac == (if MacGiven(MacList(macs), i) then MacList(macs)[i] else "")
    {
      NicAt(vmRef, networks, macs, devices, available, i);
    }
  }

  /**
   * Networks: the i-th VIF belongs to the VM and goes to the first network
   * whose name is the i-th entry of the list.
   */
  lemma NicNetworks(vmRef: string, networks: string, macs: Option<string>, devices: seq<string>, available: seq<Network>)
    ensures var names := Split(networks, ',');
            var vifs := NicsOutcome(vmRef, networks, macs, devices, available).vifs;
            && |vifs| <= |names|
            && forall i :: 0 <= i < |vifs| ==>
                 && vifs[i].vm == vmRef
                 && exists j :: 0 <= j < |available| && available[j].name == names[i]
                                && vifs[i].network == available[j].reference
                                && forall j' :: 0 <= j' < j ==> available[j'].name != names[i]
  {
    var names := Split(networks, ',');
    var vifs := NicsOutcome(vmRef, networks, macs, devices, available).vifs;
    CreateFromStops(vmRef, NicRequests(networks, macs), 0, HighestDevice(devices), available);
    forall i | 0 <= i < |vifs|
      ensures && vifs[i].vm == vmRef
              && exists j :: 0 <= j < |available| && available[j].name == names[i]
                             && vifs[i].network == available[j].reference
                             && forall j' :: 0 <= j' < j ==> available[j'].name != names[i]
    {
      NicAt(vmRef, networks, macs, devices, available, i);
      FindNetworkSpec(available, names[i]);
    }
  }

  /**
   * The command raises for the first entry naming no network, after
   * creating the VIFs before it, and otherwise creates one VIF per entry.
   */
  lemma NicErrors(vmRef: string, networks: string, macs: Option<string>, devices: seq<string>, available: seq<Network>)
    ensures var names := Split(networks, ',');
            var o := NicsOutcome(vmRef, networks, macs, devices, available);
            && (o.error.None? <==> forall i :: 0 <= i < |names| ==> exists j :: 0 <= j < |available| && available[j].name == names[i])
            && (o.error.None? ==> |o.vifs| == |names|)
            && (o.error.Some? ==> |o.vifs| < |names|
                                  && o.error.value == NetworkNotFound(names[|o.vifs|])
                                  && forall j :: 0 <= j < |available| ==> available[j].name != names[|o.vifs|])
  {
    var requests := NicRequests(networks, macs);
    var names := Split(networks, ',');
    CreateFromStops(vmRef, requests, 0, HighestDevice(devices), available);
    var o := NicsOutcome(vmRef, networks, macs, devices, available);
    if o.error.None? {
      forall i | 0 <= i < |names| ensures exists j :: 0 <= j < |available| && available[j].name == names[i] {
        NicAt(vmRef, networks, macs, devices, available, i);
        FindNetworkSpec(available, names[i]);
      }
    } else {
      var m := |o.vifs|;
      assert 0 + m == m;
      assert requests[m].network == names[m];
      FindNetworkSpec(available, names[m]);
    }
  }

  /**
   * `create_nics`: pair the MACs with the networks, find the highest
   * existing device, then create one VIF per request, stopping at the first
   * network that does not exist.
   */
  method CreateNics(vmRef: string, networks: string, macs: Option<string>, devices: seq<string>, available: seq<Network>)
    returns (vifs: seq<Vif>, error: Option<Error>)
    ensures Created(vifs, error) == NicsOutcome(vmRef, networks, macs, devices, available)
  {
    var nics := PairMacs(networks, macs);
    var highestDevice := HighestExistingDevice(devices);
    vifs, error := CreateVifs(vmRef, nics, highestDevice, available);
  }

  /** The loop over the requests: look the network up, then create the VIF numbered after the existing ones. */
  method CreateVifs(vmRef: string, nics: seq<NicRequest>, highestDevice: int, available: seq<Network>)
    returns (vifs: seq<Vif>, error: Option<Error>)
    requires highestDevice >= -1
    ensures Created(vifs, error) == CreateFrom(vmRef, nics, 0, highestDevice, available)
  {
    vifs, error := [], None;
    var nicCount := 0;
    assert vifs + CreateFrom(vmRef, nics, 0, highestDevice, available).vifs == CreateFrom(vmRef, nics, 0, highestDevice, available).vifs;
    while nicCount < |nics|
      invariant 0 <= nicCount <= |nics|
      invariant var rest := CreateFrom(vmRef, nics, nicCount, highestDevice, available);
                CreateFrom(vmRef, nics, 0, highestDevice, available) == Created(vifs + rest.vifs, rest.error)
    {
      var n := nics[nicCount];
      var net := FindNetwork(available, n.network);
      if net.None? {
        assert vifs + [] == vifs;
        return vifs, Some(NetworkNotFound(n.network));
      }
      var rest := CreateFrom(vmRef, nics, nicCount + 1, highestDevice, available);
      var c := VifFor(vmRef, n, net.value, highestDevice, nicCount + 1);
      CreateFromStep(vmRef, nics, nicCount, highestDevice, available, net.value);
      assert vifs + ([c] + rest.vifs) == (vifs + [c]) + rest.vifs;
      vifs := vifs + [c];
      nicCount := nicCount + 1;
    }
    assert vifs + [] == vifs;
  }

  /** The requests of `create_nics`: one per network name, with the MAC address given for it, if any. */
  method PairMacs(networks: string, macs: Option<string>) returns (nics: seq<NicRequest>)
    ensures nics == NicRequests(networks, macs)
  {
    var netArr := Split(networks, ',');
    if macs.Some? {
      nics := AssignMacs(netArr, Split(macs.value, ','));
    } else {
      nics := seq(|netArr|, x requires 0 <= x < |netArr| => NicRequest(netArr[x], None));
      assert nics == Paired(netArr, []);
    }
  }

  /** `net_arr.each_index { |x| net_arr[x][:mac_address] = mac_arr[x] if ... }`. */
  method AssignMacs(netArr: seq<string>, macArr: seq<string>) returns (nics: seq<NicRequest>)
    ensures nics == Paired(netArr, macArr)
  {
    nics := seq(|netArr|, x requires 0 <= x < |netArr| => NicRequest(netArr[x], None));
    var x := 0;
    while x < |nics|
      invariant 0 <= x <= |nics| == |netArr|
      invariant forall y :: 0 <= y < |nics| ==>
                  nics[y] == NicRequest(netArr[y], if y < x && MacGiven(macArr, y) then Some(macArr[y]) else None)
    {
      if x < |macArr| && macArr[x] != "" {
        nics := nics[x := nics[x].(mac := Some(macArr[x]))];
      }
      x := x + 1;
    }
  }

  /** The loop over `vm.vifs` that keeps the highest `device.to_i`, starting from -1. */
  method HighestExistingDevice(devices: seq<string>) returns (highestDevice: int)
    ensures highestDevice == HighestDevice(devices)
  {
    highestDevice := -1;
    var j := 0;
    while j < |devices|
      invariant 0 <= j <= |devices|
      invariant highestDevice == HighestDevice(devices[..j])
    {
      assert devices[..j + 1][..j] == devices[..j];
      if ToI(devices[j]) > highestDevice {
        highestDevice := ToI(devices[j]);
      }
      j := j + 1;
    }
    assert devices[..j] == devices;
  }
}
