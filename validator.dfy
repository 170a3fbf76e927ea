/** The validator of agent_config.go as the source runs it: loops over the hosts,
    their interfaces and the NTP sources, appending to one error list, with the
    set of MAC addresses seen so far shared across hosts and updated in place.
    Each method is proved to return the error list the functions of
    ValidationRules specify. */
module Validator {
  import opened Wrappers
  import opened Field
  import opened AgentTypes
  import opened Text
  import opened ValidationRules
  import opened Seqs

  /** The `macs` map of validateHosts: every MAC address met so far. The source's
      map only ever maps a key to true, so the set of its keys is all it holds. */
  class MacRegistry {
    var seen: set<string>

    constructor ()
      ensures seen == {}
    {
      seen := {};
    }
  }

  /** One more interface in the MAC loop: its errors come after those of the
      earlier ones, and its address (when set) joins the seen set. */
  lemma MacScanStep(hostPath: Path, ifaces: seq<Interface>, seen: set<string>, v: Validators, j: nat)
    requires j < |ifaces|
    ensures MacScanErrors(hostPath, ifaces[..j + 1], seen, v)
         == MacScanErrors(hostPath, ifaces[..j], seen, v)
            + MacErrors(MacPath(hostPath, j), ifaces[j].macAddress, seen + MacsOf(ifaces[..j]), v)
    ensures MacsOf(ifaces[..j + 1])
         == MacsOf(ifaces[..j]) + (if ifaces[j].macAddress == "" then {} else {ifaces[j].macAddress})
  {
    PrefixStep(ifaces, j);
  }

  /** validateHostInterfaces: checks the host's interfaces against the shared
      registry and records every non-empty MAC address in it. */
  method ValidateHostInterfaces(hostPath: Path, host: Host, macs: MacRegistry, v: Validators)
    returns (errs: seq<FieldError>)
    modifies macs
    ensures errs == HostInterfaceErrors(hostPath, host, old(macs.seen), v)
    ensures macs.seen == old(macs.seen) + MacsOf(host.interfaces)
  {
    ghost var seen0 := macs.seen;
    errs := [];
    if |host.interfaces| == 0 {
      errs := errs + [Required(InterfacesPath(hostPath), InterfacesRequiredMsg)];
    }
    ghost var head := errs;
    for j := 0 to |host.interfaces|
      invariant errs == head + MacScanErrors(hostPath, host.interfaces[..j], seen0, v)
      invariant macs.seen == seen0 + MacsOf(host.interfaces[..j])
    {
      MacScanStep(hostPath, host.interfaces, seen0, v, j);
      ghost var scanned := MacScanErrors(hostPath, host.interfaces[..j], seen0, v);
      var mac := host.interfaces[j].macAddress;
      var macAddressPath := MacPath(hostPath, j);
      if mac == "" {
        errs := errs + [Required(macAddressPath, MacRequiredMsg)];
        AppendAssoc(head, scanned, [Required(macAddressPath, MacRequiredMsg)]);
        continue;
      }
      ghost var before := errs;
      match v.mac(mac) {
        case Some(msg) => errs := errs + [Invalid(macAddressPath, mac, CheckerMsg(msg))];
        case None =>
      }
      ghost var checked := errs;
      if mac in macs.seen {
        errs := errs + [Invalid(macAddressPath, mac, DuplicateMacMsg)];
      }
      ghost var rejected := InvalidIfRejected(macAddressPath, mac, v.mac(mac));
      ghost var duplicate := if mac in macs.seen then [Invalid(macAddressPath, mac, DuplicateMacMsg)] else [];
      assert checked == before + rejected;
      assert errs == checked + duplicate;
      AppendAssoc(before, rejected, duplicate);
      AppendAssoc(head, scanned, rejected + duplicate);
      macs.seen := macs.seen + {mac};
    }
    PrefixAll(host.interfaces);
  }

  /** validateHosts: every host's interfaces, root device hints and role, in host
      order, with one MAC registry for all hosts. */
  method ValidateHosts(hosts: seq<Host>, v: Validators) returns (errs: seq<FieldError>)
    ensures errs == HostsErrors(hosts, v)
  {
    errs := [];
    var macs := new MacRegistry();
    for i := 0 to |hosts|
      invariant errs == HostsErrors(hosts[..i], v)
      invariant macs.seen == AllMacs(hosts[..i])
    {
      PrefixStep(hosts, i);
      var host := hosts[i];
      var hostPath := HostPath(i);
      ghost var seen := macs.seen;
      assert HostsErrors(hosts[..i + 1], v) == errs + HostErrors(hostPath, host, seen, v);
      assert AllMacs(hosts[..i + 1]) == seen + MacsOf(host.interfaces);
      var interfaceErrs := ValidateHostInterfaces(hostPath, host, macs, v);
      var hintErrs := ValidateHostRootDeviceHints(hostPath, host);
      var roleErrs := ValidateRoles(hostPath, host);
      errs := errs + (interfaceErrs + hintErrs + roleErrs);
    }
    PrefixAll(hosts);
  }

  /** validateAdditionalNTPSources: one error per source that is neither a domain
      name nor an IP. The IP check is consulted only when the domain check fails. */
  method ValidateAdditionalNTPSources(sources: seq<string>, v: Validators) returns (errs: seq<FieldError>)
    ensures errs == NTPSourcesErrors(sources, v)
  {
    errs := [];
    for k := 0 to |sources|
      invariant errs == NTPSourcesErrors(sources[..k], v)
    {
      PrefixStep(sources, k);
      var source := sources[k];
      if v.domainName(source).Some? {
        if v.ip(source).Some? {
          errs := errs + [Invalid(NTPSourcePath(k), source, NTPSourceMsg)];
        }
      }
    }
    PrefixAll(sources);
  }

  /** An empty rendezvous IP yields no placement error for any host. */
  lemma {:induction false} NoPlacementWithoutRendezvousIP(hosts: seq<Host>)
    ensures RendezvousPlacementErrors("", hosts) == []
  {
    if hosts != [] {
      NoPlacementWithoutRendezvousIP(hosts[..|hosts| - 1]);
    }
  }

  /** validateRendevousIPNotWorker: with a rendezvous IP set, each host whose raw
      network config contains it and whose role is set but is not master. */
  method ValidateRendezvousIPNotWorker(rendezvousIP: string, hosts: seq<Host>) returns (errs: seq<FieldError>)
    ensures errs == RendezvousPlacementErrors(rendezvousIP, hosts)
  {
    errs := [];
    if rendezvousIP != "" {
      for i := 0 to |hosts|
        invariant errs == RendezvousPlacementErrors(rendezvousIP, hosts[..i])
      {
        PrefixStep(hosts, i);
        assert RendezvousPlacementErrors(rendezvousIP, hosts[..i + 1])
            == RendezvousPlacementErrors(rendezvousIP, hosts[..i]) + PlacementErrors(i, rendezvousIP, hosts[i]);
        var host := hosts[i];
        if Contains(host.networkConfigRaw, rendezvousIP) && host.role != "master" {
          if |host.role| > 0 {
            errs := errs + [Forbidden(HostFieldPath(HostPath(i)), PlacementMsg(host.hostname))];
          }
        }
      }
      PrefixAll(hosts);
    } else {
      NoPlacementWithoutRendezvousIP(hosts);
    }
  }

  /** validateAgent: the rendezvous-IP errors, then the host errors, then the NTP
      errors, then the placement errors, every group run whatever the others found. */
  method ValidateAgent(c: Config, v: Validators) returns (errs: seq<FieldError>)
    ensures errs == ValidateRendezvousIP(c.rendezvousIP, v)
                    + HostsErrors(c.hosts, v)
                    + NTPSourcesErrors(c.additionalNTPSources, v)
                    + RendezvousPlacementErrors(c.rendezvousIP, c.hosts)
    ensures errs == AgentErrors(c, v)
  {
    var rendezvousErrs := ValidateRendezvousIP(c.rendezvousIP, v);
    var hostErrs := ValidateHosts(c.hosts, v);
    var ntpErrs := ValidateAdditionalNTPSources(c.additionalNTPSources, v);
    var placementErrs := ValidateRendezvousIPNotWorker(c.rendezvousIP, c.hosts);
    errs := rendezvousErrs + hostErrs + ntpErrs + placementErrs;
  }
}
