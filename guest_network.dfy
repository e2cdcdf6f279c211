/**
 * The guest network settings `vm create` derives before provisioning: the
 * gateway defaulted from the IP address, the netmask, DNS server and
 * domain defaulted from the knife configuration, and the `vm-data`
 * entries written to the VM's xenstore.
 */
module GuestNetwork {
  import opened Wrappers
  import opened RubyStrings

  /** The network options of one run (`--vm-ip`, `--vm-gateway`, `--vm-netmask`, `--vm-dns`, `--vm-domain`); None is `nil`. */
  datatype NetOptions = NetOptions(
    ip: Option<string>,
    gateway: Option<string>,
    netmask: Option<string>,
    dns: Option<string>,
    domain: Option<string>)

  /**
   * The knife configuration's defaults: xenserver_default_vm_gateway_last_octet
   * (its string form), xenserver_default_vm_netmask, _dns and _domain.
   */
  datatype NetDefaults = NetDefaults(
    gatewayLastOctet: Option<string>,
    netmask: Option<string>,
    dns: Option<string>,
    domain: Option<string>)

  // ---------------------------------------------------------------------
  // the gateway: ip.gsub(/\.\d+$/, ".#{last_octet}")
  // ---------------------------------------------------------------------

  /** The longest suffix of `s` made of digits. */
  function TrailingDigits(s: string): (r: string)
    ensures |r| <= |s| && r == s[|s| - |r|..]
    ensures forall i :: 0 <= i < |r| ==> IsDigit(r[i])
    ensures |r| < |s| ==> !IsDigit(s[|s| - |r| - 1])
  {
    if |s| > 0 && IsDigit(s[|s| - 1]) then TrailingDigits(s[..|s| - 1]) + [s[|s| - 1]] else ""
  }

  /** The line ends in a dot followed by at least one digit. */
  predicate EndsInOctet(line: string) {
    var d := TrailingDigits(line);
    |d| > 0 && |d| < |line| && line[|line| - |d| - 1] == '.'
  }

  /** The position of that final dot. */
  function OctetDot(line: string): (p: nat)
    requires EndsInOctet(line)
    ensures p < |line| && line[p] == '.'
  {
    |line| - |TrailingDigits(line)| - 1
  }

  /**
   * An independent reading of the pattern `\.\d+$`: a dot at `p`, digits
   * from `p + 1` up to `q`, and `q` is the end of a line (the end of the
   * string, or just before a line feed, as Ruby's `$` has it).
   */
  predicate PatternMatchAt(s: string, p: int, q: int) {
    && 0 <= p && p + 1 < q <= |s|
    && s[p] == '.'
    && (forall i :: p + 1 <= i < q ==> IsDigit(s[i]))
    && (q == |s| || s[q] == '\n')
  }

  /** `gsub` on one line: the final `.digits`, if there is one, becomes `.octet`. */
  function ReplaceLineOctet(line: string, octet: string): string {
    if EndsInOctet(line) then line[..OctetDot(line)] + "." + octet else line
  }

  /** `gsub` on the whole string, line by line: a match never spans a line feed. */
  function ReplaceLastOctets(s: string, octet: string): string {
    var lines := SplitAll(s, '\n');
    Join(seq(|lines|, i requires 0 <= i < |lines| => ReplaceLineOctet(lines[i], octet)), '\n')
  }

  /** On a line, the pattern matches exactly once, at the final `.digits`, or not at all. */
  lemma PatternMatchesFinalOctet(line: string, p: int, q: int)
    requires '\n' !in line
    ensures PatternMatchAt(line, p, q) <==> EndsInOctet(line) && p == OctetDot(line) && q == |line|
  {
    var d := TrailingDigits(line);
    if PatternMatchAt(line, p, q) {
      assert q == |line|;
      assert |line| - |d| <= p + 1;
      assert p >= |line| - |d| - 1;
      assert p != |line| - |d|;
    }
    if EndsInOctet(line) && p == OctetDot(line) && q == |line| {
      forall i | p + 1 <= i < q ensures IsDigit(line[i]) {
        assert line[i] == d[i - (|line| - |d|)];
      }
    }
  }

  /** A line without the pattern is left alone; one with it keeps everything up to and including the final dot. */
  lemma ReplaceLineOctetMeaning(line: string, octet: string)
    requires '\n' !in line
    ensures !(exists p, q :: PatternMatchAt(line, p, q)) ==> ReplaceLineOctet(line, octet) == line
    ensures forall p, q :: PatternMatchAt(line, p, q) ==> ReplaceLineOctet(line, octet) == line[..p] + "." + octet
  {
    if EndsInOctet(line) {
      PatternMatchesFinalOctet(line, OctetDot(line), |line|);
    }
    forall p, q | PatternMatchAt(line, p, q) ensures ReplaceLineOctet(line, octet) == line[..p] + "." + octet {
      PatternMatchesFinalOctet(line, p, q);
    }
  }

  /** The final octet of `prefix + "." + digits` is `digits`. */
  lemma TrailingDigitsAfterDot(prefix: string, digits: string)
    requires IsDigits(digits)
    ensures TrailingDigits(prefix + "." + digits) == digits
    decreases |digits|
  {
    var s := prefix + "." + digits;
    if |digits| == 1 {
      assert s[..|s| - 1] == prefix + ".";
      assert TrailingDigits(prefix + ".") == "";
    } else {
      var init := digits[..|digits| - 1];
      TrailingDigitsAfterDot(prefix, init);
      assert s[..|s| - 1] == prefix + "." + init;
      assert init + [digits[|digits| - 1]] == digits;
    }
  }

  /** An address `prefix.digits` gets the gateway `prefix.octet`. */
  lemma ReplaceLineOctetOfAddress(prefix: string, digits: string, octet: string)
    requires IsDigits(digits)
    ensures ReplaceLineOctet(prefix + "." + digits, octet) == prefix + "." + octet
  {
    var s := prefix + "." + digits;
    TrailingDigitsAfterDot(prefix, digits);
    assert s[|s| - |digits| - 1] == '.';
    assert s[..OctetDot(s)] == prefix;
  }

  /** Replacing the octet again with the same digits changes nothing. */
  lemma ReplaceLineOctetIdempotent(line: string, octet: string)
    requires IsDigits(octet)
    ensures ReplaceLineOctet(ReplaceLineOctet(line, octet), octet) == ReplaceLineOctet(line, octet)
  {
    if EndsInOctet(line) {
      ReplaceLineOctetOfAddress(line[..OctetDot(line)], octet, octet);
    }
  }

  /** A string without line feeds is a single line for `gsub`. */
  lemma ReplaceLastOctetsSingleLine(s: string, octet: string)
    requires '\n' !in s
    ensures ReplaceLastOctets(s, octet) == ReplaceLineOctet(s, octet)
  {
    SplitAllWithoutSeparator(s, '\n');
  }

  /** The substitution is idempotent when the octet is a number. */
  lemma ReplaceLastOctetsIdempotent(s: string, octet: string)
    requires IsDigits(octet)
    ensures ReplaceLastOctets(ReplaceLastOctets(s, octet), octet) == ReplaceLastOctets(s, octet)
  {
    var lines := SplitAll(s, '\n');
    var once := seq(|lines|, i requires 0 <= i < |lines| => ReplaceLineOctet(lines[i], octet));
    assert forall i :: 0 <= i < |once| ==> '\n' !in once[i] by {
      forall i | 0 <= i < |once| ensures '\n' !in once[i] {
        assert '\n' !in lines[i];
        if EndsInOctet(lines[i]) {
          var pre := lines[i][..OctetDot(lines[i])];
          assert once[i] == pre + "." + octet;
          assert forall j :: 0 <= j < |pre| ==> pre[j] == lines[i][j];
          assert '\n' !in octet by {
            assert forall j :: 0 <= j < |octet| ==> IsDigit(octet[j]);
          }
        }
      }
    }
    SplitAllJoin(once, '\n');
    var twice := seq(|once|, i requires 0 <= i < |once| => ReplaceLineOctet(once[i], octet));
    forall i | 0 <= i < |once| ensures twice[i] == once[i] {
      ReplaceLineOctetIdempotent(lines[i], octet);
    }
    assert twice == once;
  }

  /** `Chef::Config[:knife][:xenserver_default_vm_gateway_last_octet] || 1`. */
  function LastOctet(d: NetDefaults): string {
    d.gatewayLastOctet.GetOr("1")
  }

  /** `config[:vm_gateway]` after `run`'s defaulting: derived from the IP only when no gateway was given. */
  function Gateway(o: NetOptions, d: NetDefaults): Option<string> {
    if o.gateway.Some? then o.gateway
    else if o.ip.Some? then Some(ReplaceLastOctets(o.ip.value, LastOctet(d)))
    else None
  }

  /** `a ||= b` on an option. */
  function OrElse(a: Option<string>, b: Option<string>): Option<string> {
    if a.Some? then a else b
  }

  /** The options once the gateway is derived and `||=` has filled in netmask, DNS and domain. */
  function ApplyDefaults(o: NetOptions, d: NetDefaults): NetOptions {
    NetOptions(o.ip, Gateway(o, d), OrElse(o.netmask, d.netmask), OrElse(o.dns, d.dns), OrElse(o.domain, d.domain))
  }

  /**
   * The defaulting keeps every option that was given and fills only the
   * missing ones: the gateway from the IP address (None when there is
   * none), the rest from the configuration.
   */
  lemma ApplyDefaultsMeaning(o: NetOptions, d: NetDefaults)
    ensures var r := ApplyDefaults(o, d);
            && r.ip == o.ip
            && (o.gateway.Some? ==> r.gateway == o.gateway)
            && (o.gateway.None? ==> (r.gateway.Some? <==> o.ip.Some?))
            && (o.netmask.Some? ==> r.netmask == o.netmask) && (o.netmask.None? ==> r.netmask == d.netmask)
            && (o.dns.Some? ==> r.dns == o.dns) && (o.dns.None? ==> r.dns == d.dns)
            && (o.domain.Some? ==> r.domain == o.domain) && (o.domain.None? ==> r.domain == d.domain)
  {
  }

  /** Defaulting twice gives the same options as defaulting once. */
  lemma ApplyDefaultsIdempotent(o: NetOptions, d: NetDefaults)
    ensures ApplyDefaults(ApplyDefaults(o, d), d) == ApplyDefaults(o, d)
  {
  }

  /**
   * With no gateway given, a one-line IP address `prefix.digits` gets the
   * gateway `prefix.last_octet`.
   */
  lemma GatewayDerivedFromIp(o: NetOptions, d: NetDefaults, prefix: string, digits: string)
    requires o.gateway.None? && o.ip == Some(prefix + "." + digits)
    requires '\n' !in prefix && IsDigits(digits)
    ensures Gateway(o, d) == Some(prefix + "." + LastOctet(d))
  {
    var ip := prefix + "." + digits;
    assert '\n' !in ip by {
      assert forall i :: 0 <= i < |digits| ==> IsDigit(digits[i]);
      assert forall i :: 0 <= i < |ip| ==> ip[i] == (if i < |prefix| then prefix[i] else if i == |prefix| then '.' else digits[i - |prefix| - 1]);
    }
    ReplaceLastOctetsSingleLine(ip, LastOctet(d));
    ReplaceLineOctetOfAddress(prefix, digits, LastOctet(d));
  }

  /** With the configuration's default octet, "10.0.0.5" gets the gateway "10.0.0.1". */
  lemma DefaultGatewayExample()
    ensures Gateway(NetOptions(Some("10.0.0.5"), None, None, None, None), NetDefaults(None, None, None, None)) == Some("10.0.0.1")
  {
    var prefix := "10.0.0";
    var five := "5";
    assert five[0] == '5';
    assert "10.0.0.5" == prefix + "." + five;
    assert "10.0.0.1" == prefix + "." + "1";
    GatewayDerivedFromIp(NetOptions(Some("10.0.0.5"), None, None, None, None), NetDefaults(None, None, None, None), prefix, five);
  }

  // ---------------------------------------------------------------------
  // the xenstore attributes
  // ---------------------------------------------------------------------

  /** The Ruby hash `attrs`, in insertion order. */
  type Attrs = seq<(string, string)>

  const IpKey := "vm-data/ip"
  const GatewayKey := "vm-data/gw"
  const NetmaskKey := "vm-data/nm"
  const DnsKey := "vm-data/ns"
  const DomainKey := "vm-data/dm"

  /** `(attrs[key] = value) if value`. */
  function Entry(key: string, value: Option<string>): Attrs {
    if value.Some? then [(key, value.value)] else []
  }

  /** The hash `run` builds from the (defaulted) options. */
  function XenstoreAttrs(o: NetOptions): Attrs {
    Entry(IpKey, o.ip) + Entry(GatewayKey, o.gateway) + Entry(NetmaskKey, o.netmask) + Entry(DnsKey, o.dns) + Entry(DomainKey, o.domain)
  }

  /** `attrs[key]`: the value stored under `key`, if any. */
  function Lookup(attrs: Attrs, key: string): Option<string> {
    if |attrs| == 0 then None else if attrs[0].0 == key then Some(attrs[0].1) else Lookup(attrs[1..], key)
  }

  lemma {:induction false} LookupAppend(a: Attrs, b: Attrs, key: string)
    ensures Lookup(a + b, key) == if Lookup(a, key).Some? then Lookup(a, key) else Lookup(b, key)
    decreases |a|
  {
    if |a| > 0 {
      assert (a + b)[1..] == a[1..] + b;
      LookupAppend(a[1..], b, key);
    } else {
      assert a + b == b;
    }
  }

  lemma LookupEntry(key: string, value: Option<string>, key': string)
    ensures Lookup(Entry(key, value), key') == if key' == key then value else None
  {
  }

  /** The options read back from a xenstore hash. */
  function OptionsOf(attrs: Attrs): NetOptions {
    NetOptions(Lookup(attrs, IpKey), Lookup(attrs, GatewayKey), Lookup(attrs, NetmaskKey), Lookup(attrs, DnsKey), Lookup(attrs, DomainKey))
  }

  /** Reading the hash back gives the options it was built from: a key is present exactly when its option is set. */
  lemma XenstoreRoundTrip(o: NetOptions)
    ensures OptionsOf(XenstoreAttrs(o)) == o
  {
    var keys := [IpKey, GatewayKey, NetmaskKey, DnsKey, DomainKey];
    assert IpKey[8] == 'i' && GatewayKey[8] == 'g' && NetmaskKey[8] == 'n' && DnsKey[8] == 'n' && DomainKey[8] == 'd';
    assert NetmaskKey[9] == 'm' && DnsKey[9] == 's';
    var e1, e2, e3, e4, e5 := Entry(IpKey, o.ip), Entry(GatewayKey, o.gateway), Entry(NetmaskKey, o.netmask), Entry(DnsKey, o.dns), Entry(DomainKey, o.domain);
    forall k | k in keys
      ensures Lookup(XenstoreAttrs(o), k)
              == if k == IpKey then o.ip else if k == GatewayKey then o.gateway else if k == NetmaskKey then o.netmask
                 else if k == DnsKey then o.dns else o.domain
    {
      LookupAppend(e1 + e2 + e3 + e4, e5, k);
      LookupAppend(e1 + e2 + e3, e4, k);
      LookupAppend(e1 + e2, e3, k);
      LookupAppend(e1, e2, k);
      LookupEntry(IpKey, o.ip, k);
      LookupEntry(GatewayKey, o.gateway, k);
      LookupEntry(NetmaskKey, o.netmask, k);
      LookupEntry(DnsKey, o.dns, k);
      LookupEntry(DomainKey, o.domain, k);
    }
  }

  /** The position of a `vm-data` key in the order `run` writes them; 5 for any other key. */
  function KeyRank(key: string): nat {
    if key == IpKey then 0 else if key == GatewayKey then 1 else if key == NetmaskKey then 2
    else if key == DnsKey then 3 else if key == DomainKey then 4 else 5
  }

  /** The five keys are distinct, so each has its own rank. */
  lemma KeyRanks()
    ensures KeyRank(IpKey) == 0 && KeyRank(GatewayKey) == 1 && KeyRank(NetmaskKey) == 2
    ensures KeyRank(DnsKey) == 3 && KeyRank(DomainKey) == 4
  {
    assert IpKey[8] == 'i' && GatewayKey[8] == 'g' && NetmaskKey[8] == 'n' && DnsKey[8] == 'n' && DomainKey[8] == 'd';
    assert NetmaskKey[9] == 'm' && DnsKey[9] == 's';
  }

  /** Every key of `attrs` has a rank below `bound`, and ranks strictly increase along `attrs`. */
  predicate RankedBelow(attrs: Attrs, bound: nat) {
    && (forall i :: 0 <= i < |attrs| ==> KeyRank(attrs[i].0) < bound)
    && (forall i, j :: 0 <= i < j < |attrs| ==> KeyRank(attrs[i].0) < KeyRank(attrs[j].0))
  }

  /** Writing the key of rank `r` behind keys of lower rank keeps the ranks increasing. */
  lemma RankedEntry(attrs: Attrs, key: string, value: Option<string>, r: nat)
    requires RankedBelow(attrs, r) && KeyRank(key) == r
    ensures RankedBelow(attrs + Entry(key, value), r + 1)
    ensures |attrs + Entry(key, value)| <= |attrs| + 1
  {
  }

  /** The hash holds its keys in the order `run` writes them, at most one of each. */
  lemma XenstoreRanked(o: NetOptions)
    ensures RankedBelow(XenstoreAttrs(o), 5) && |XenstoreAttrs(o)| <= 5
  {
    KeyRanks();
    var a0: Attrs := [];
    var a1 := a0 + Entry(IpKey, o.ip);
    RankedEntry(a0, IpKey, o.ip, 0);
    var a2 := a1 + Entry(GatewayKey, o.gateway);
    RankedEntry(a1, GatewayKey, o.gateway, 1);
    var a3 := a2 + Entry(NetmaskKey, o.netmask);
    RankedEntry(a2, NetmaskKey, o.netmask, 2);
    var a4 := a3 + Entry(DnsKey, o.dns);
    RankedEntry(a3, DnsKey, o.dns, 3);
    RankedEntry(a4, DomainKey, o.domain, 4);
    assert a1 == Entry(IpKey, o.ip);
  }

  /** Every key of the hash is one of the five `vm-data` keys, each at most once. */
  lemma XenstoreKeys(o: NetOptions)
    ensures var attrs := XenstoreAttrs(o);
            && |attrs| <= 5
            && (forall i :: 0 <= i < |attrs| ==> attrs[i].0 in [IpKey, GatewayKey, NetmaskKey, DnsKey, DomainKey])
            && (forall i, j :: 0 <= i < j < |attrs| ==> attrs[i].0 != attrs[j].0)
  {
    XenstoreRanked(o);
  }

  /** `(attrs[key] = value) if value`, on a hash that does not hold `key` yet: a new key goes last. */
  method Put(attrs: Attrs, key: string, value: Option<string>) returns (attrs': Attrs)
    requires forall i :: 0 <= i < |attrs| ==> attrs[i].0 != key
    ensures attrs' == attrs + Entry(key, value)
  {
    attrs' := attrs;
    if value.Some? {
      attrs' := attrs + [(key, value.value)];
    }
  }

  /**
   * The last block of network configuration in `run`: fill `attrs` one
   * key at a time, and hand it to the hypervisor as `xenstore_data` only
   * when it is not empty (None: nothing is written).
   */
  method XenstoreData(o: NetOptions) returns (written: Option<Attrs>)
    ensures written.None? <==> o.ip.None? && o.gateway.None? && o.netmask.None? && o.dns.None? && o.domain.None?
    ensures written.Some? ==> written.value == XenstoreAttrs(o)
  {
    KeyRanks();
    var attrs: Attrs := [];
    RankedEntry(attrs, IpKey, o.ip, 0);
    attrs := Put(attrs, IpKey, o.ip);
    RankedEntry(attrs, GatewayKey, o.gateway, 1);
    attrs := Put(attrs, GatewayKey, o.gateway);
    RankedEntry(attrs, NetmaskKey, o.netmask, 2);
    attrs := Put(attrs, NetmaskKey, o.netmask);
    RankedEntry(attrs, DnsKey, o.dns, 3);
    attrs := Put(attrs, DnsKey, o.dns);
    attrs := Put(attrs, DomainKey, o.domain);
    assert [] + Entry(IpKey, o.ip) == Entry(IpKey, o.ip);
    if attrs != [] {
      written := Some(attrs);
    } else {
      written := None;
    }
  }
}
