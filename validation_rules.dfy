/** The validation rules of agent_config.go as functions of the configuration.

    The rules without loops (the rendezvous IP, the root device hints, the
    role) are modelled as they are written. For the rules the source runs as
    loops (hosts, interfaces, NTP sources, rendezvous placement) the functions
    here are the specifications the methods in module Validator are proved
    against: each is defined on a prefix of the list, so that the error list
    of n + 1 items is that of the first n items followed by the errors of the
    last one. */
module ValidationRules {
  import opened Wrappers
  import opened Field
  import opened AgentTypes
  import opened Text

  // Field paths.
  const RendezvousIPPath: Path := [Child(RendezvousIPField)]
  const NTPSourcesPath: Path := [Child(AdditionalNTPSourcesField)]

  function HostPath(i: nat): Path { [Child(HostsField), Index(i)] }
  function InterfacesPath(hostPath: Path): Path { hostPath + [Child(InterfacesField)] }
  function MacPath(hostPath: Path, j: nat): Path { InterfacesPath(hostPath) + [Index(j), Child(MacAddressField)] }
  function WWNExtensionPath(hostPath: Path): Path { hostPath + [Child(RootDeviceHintsField), Child(WWNWithExtensionField)] }
  function WWNVendorExtensionPath(hostPath: Path): Path { hostPath + [Child(RootDeviceHintsField), Child(WWNVendorExtensionField)] }
  /** Role and rendezvous-placement errors are both tagged `Hosts[i].Host`. */
  function HostFieldPath(hostPath: Path): Path { hostPath + [Child(HostField)] }
  function NTPSourcePath(k: nat): Path { NTPSourcesPath + [Index(k)] }

  /** One Invalid error carrying the checker's message when the checker rejects `value`. */
  function InvalidIfRejected(p: Path, value: string, verdict: Option<string>): seq<FieldError>
  {
    match verdict
    case None => []
    case Some(msg) => [Invalid(p, value, CheckerMsg(msg))]
  }

  /** validateRendezvousIP: an empty address is accepted; otherwise the IP checker decides. */
  function ValidateRendezvousIP(rendezvousIP: string, v: Validators): seq<FieldError>
  {
    if rendezvousIP == "" then []
    else InvalidIfRejected(RendezvousIPPath, rendezvousIP, v.ip(rendezvousIP))
  }

  lemma RendezvousIPRule(rendezvousIP: string, v: Validators)
    ensures rendezvousIP == "" ==> ValidateRendezvousIP(rendezvousIP, v) == []
    ensures ValidateRendezvousIP(rendezvousIP, v) != [] <==> rendezvousIP != "" && v.ip(rendezvousIP).Some?
    ensures ValidateRendezvousIP(rendezvousIP, v) != [] ==>
              ValidateRendezvousIP(rendezvousIP, v)
              == [Invalid(RendezvousIPPath, rendezvousIP, CheckerMsg(v.ip(rendezvousIP).value))]
  {
  }

  /** validateHostRootDeviceHints: each of the two WWN extension hints that is set
      is forbidden, WWNWithExtension first. */
  function ValidateHostRootDeviceHints(hostPath: Path, host: Host): seq<FieldError>
  {
    (if host.rootDeviceHints.wwnWithExtension != ""
     then [Forbidden(WWNExtensionPath(hostPath), WWNExtensionMsg)] else [])
    + (if host.rootDeviceHints.wwnVendorExtension != ""
       then [Forbidden(WWNVendorExtensionPath(hostPath), WWNVendorExtensionMsg)] else [])
  }

  lemma RootDeviceHintsRule(hostPath: Path, host: Host)
    ensures var errs := ValidateHostRootDeviceHints(hostPath, host);
      && |errs| == (if host.rootDeviceHints.wwnWithExtension != "" then 1 else 0)
                   + (if host.rootDeviceHints.wwnVendorExtension != "" then 1 else 0)
      && (forall e :: e in errs ==> e.kind == TypeForbidden)
      && (Forbidden(WWNExtensionPath(hostPath), WWNExtensionMsg) in errs
          <==> host.rootDeviceHints.wwnWithExtension != "")
      && (Forbidden(WWNVendorExtensionPath(hostPath), WWNVendorExtensionMsg) in errs
          <==> host.rootDeviceHints.wwnVendorExtension != "")
      && (|errs| == 2 ==> errs[0].path == WWNExtensionPath(hostPath))
  {
    assert WWNExtensionPath(hostPath) != WWNVendorExtensionPath(hostPath) by {
      assert WWNExtensionPath(hostPath)[|hostPath| + 1] != WWNVendorExtensionPath(hostPath)[|hostPath| + 1];
    }
  }

  /** The roles the validator accepts, compared case-sensitively; an empty role is unset. */
  predicate RoleAllowed(role: string)
  {
    role == "" || role == "master" || role == "worker"
  }

  /** validateRoles: one Forbidden error, tagged `.Host`, for a role outside the allowed ones. */
  function ValidateRoles(hostPath: Path, host: Host): seq<FieldError>
  {
    if |host.role| > 0 && host.role != "master" && host.role != "worker"
    then [Forbidden(HostFieldPath(hostPath), RoleMsg)]
    else []
  }

  lemma RoleRule(hostPath: Path, host: Host)
    ensures |ValidateRoles(hostPath, host)| <= 1
    ensures ValidateRoles(hostPath, host) == [] <==> RoleAllowed(host.role)
    ensures ValidateRoles(hostPath, host) != [] ==>
              ValidateRoles(hostPath, host)[0] == Forbidden(HostFieldPath(hostPath), RoleMsg)
  {
  }

  /** The non-empty MAC addresses of `ifaces`: what the interface scan adds to the seen set. */
  function MacsOf(ifaces: seq<Interface>): (macs: set<string>)
    ensures "" !in macs
  {
    if ifaces == [] then {}
    else
      var last := ifaces[|ifaces| - 1].macAddress;
      MacsOf(ifaces[..|ifaces| - 1]) + (if last == "" then {} else {last})
  }

  /** The non-empty MAC addresses of all interfaces of `hosts`. */
  function AllMacs(hosts: seq<Host>): (macs: set<string>)
    ensures "" !in macs
  {
    if hosts == [] then {}
    else AllMacs(hosts[..|hosts| - 1]) + MacsOf(hosts[|hosts| - 1].interfaces)
  }

  /** The errors for one interface's MAC address, given the set of addresses seen before it. */
  function MacErrors(macPath: Path, mac: string, seen: set<string>, v: Validators): seq<FieldError>
  {
    if mac == "" then [Required(macPath, MacRequiredMsg)]
    else InvalidIfRejected(macPath, mac, v.mac(mac))
         + (if mac in seen then [Invalid(macPath, mac, DuplicateMacMsg)] else [])
  }

  /** The errors of the MAC loop of validateHostInterfaces over `ifaces`, starting from
      the seen set `seen`; interface j is checked against `seen` and the earlier interfaces. */
  function MacScanErrors(hostPath: Path, ifaces: seq<Interface>, seen: set<string>, v: Validators): seq<FieldError>
  {
    if ifaces == [] then []
    else
      var j := |ifaces| - 1;
      MacScanErrors(hostPath, ifaces[..j], seen, v)
      + MacErrors(MacPath(hostPath, j), ifaces[j].macAddress, seen + MacsOf(ifaces[..j]), v)
  }

  /** The Required error of a host that lists no interface. */
  function InterfacesRequired(hostPath: Path, host: Host): seq<FieldError>
  {
    if |host.interfaces| == 0 then [Required(InterfacesPath(hostPath), InterfacesRequiredMsg)] else []
  }

  /** validateHostInterfaces: a host without interfaces, then the MAC loop. */
  function HostInterfaceErrors(hostPath: Path, host: Host, seen: set<string>, v: Validators): seq<FieldError>
  {
    InterfacesRequired(hostPath, host) + MacScanErrors(hostPath, host.interfaces, seen, v)
  }

  /** The errors of one iteration of validateHosts. */
  function HostErrors(hostPath: Path, host: Host, seen: set<string>, v: Validators): seq<FieldError>
  {
    HostInterfaceErrors(hostPath, host, seen, v)
    + ValidateHostRootDeviceHints(hostPath, host)
    + ValidateRoles(hostPath, host)
  }

  /** validateHosts: host i is checked against the MACs of hosts 0..i-1. */
  function HostsErrors(hosts: seq<Host>, v: Validators): seq<FieldError>
  {
    if hosts == [] then []
    else
      var i := |hosts| - 1;
      HostsErrors(hosts[..i], v) + HostErrors(HostPath(i), hosts[i], AllMacs(hosts[..i]), v)
  }

  /** An NTP source is rejected only when it is neither a domain name nor an IP. */
  function NTPSourceErrors(k: nat, source: string, v: Validators): seq<FieldError>
  {
    if v.domainName(source).Some? && v.ip(source).Some?
    then [Invalid(NTPSourcePath(k), source, NTPSourceMsg)]
    else []
  }

  /** validateAdditionalNTPSources over `sources`. */
  function NTPSourcesErrors(sources: seq<string>, v: Validators): seq<FieldError>
  {
    if sources == [] then []
    else
      var k := |sources| - 1;
      NTPSourcesErrors(sources[..k], v) + NTPSourceErrors(k, sources[k], v)
  }

  /** Host i carries the rendezvous IP in its network config but has a role set
      other than master. A host whose role is unset is not flagged. */
  predicate MisplacedRendezvousIP(rendezvousIP: string, host: Host)
  {
    rendezvousIP != "" && Contains(host.networkConfigRaw, rendezvousIP)
    && host.role != "master" && |host.role| > 0
  }

  function PlacementErrors(i: nat, rendezvousIP: string, host: Host): seq<FieldError>
  {
    if MisplacedRendezvousIP(rendezvousIP, host)
    then [Forbidden(HostFieldPath(HostPath(i)), PlacementMsg(host.hostname))]
    else []
  }

  /** validateRendevousIPNotWorker over `hosts`. */
  function RendezvousPlacementErrors(rendezvousIP: string, hosts: seq<Host>): seq<FieldError>
  {
    if hosts == [] then []
    else
      var i := |hosts| - 1;
      RendezvousPlacementErrors(rendezvousIP, hosts[..i]) + PlacementErrors(i, rendezvousIP, hosts[i])
  }

  /** validateAgent: the four rule groups, in order, none short-circuiting another. */
  function AgentErrors(c: Config, v: Validators): seq<FieldError>
  {
    ValidateRendezvousIP(c.rendezvousIP, v)
    + HostsErrors(c.hosts, v)
    + NTPSourcesErrors(c.additionalNTPSources, v)
    + RendezvousPlacementErrors(c.rendezvousIP, c.hosts)
  }
}
