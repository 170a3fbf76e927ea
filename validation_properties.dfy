/** Properties of the whole validator. Each lemma names one field path and states
    the complete list of errors the validator reports at that path, over every
    rule group: so "exactly one error" and "no error" are both read off it. */
module ValidationProperties {
  import opened Wrappers
  import opened Field
  import opened AgentTypes
  import opened Text
  import opened ValidationRules
  import opened MacProperties
  import opened Seqs

  // ---------------------------------------------------------------------------
  // Where each group's errors can be tagged.

  lemma MacPathInjective(hp: Path, j: nat, k: nat)
    requires MacPath(hp, j) == MacPath(hp, k)
    ensures j == k
  {
    assert MacPath(hp, j)[|hp| + 1] == Index(j);
    assert MacPath(hp, k)[|hp| + 1] == Index(k);
  }

  lemma {:induction false} MacScanPaths(hp: Path, ifaces: seq<Interface>, seen: set<string>, v: Validators)
    ensures forall e :: e in MacScanErrors(hp, ifaces, seen, v) ==>
              exists j :: 0 <= j < |ifaces| && e.path == MacPath(hp, j)
  {
    if ifaces != [] {
      var n := |ifaces| - 1;
      MacScanPaths(hp, ifaces[..n], seen, v);
    }
  }

  lemma MacErrorsPath(p: Path, mac: string, seen: set<string>, v: Validators)
    ensures forall e :: e in MacErrors(p, mac, seen, v) ==> e.path == p
  {
  }

  /** The MAC loop over interfaces 0..n-1 reports nothing at interface j's path for j >= n. */
  lemma MacScanBeyond(hp: Path, ifaces: seq<Interface>, seen: set<string>, v: Validators, j: nat)
    requires j >= |ifaces|
    ensures ErrorsAt(MacScanErrors(hp, ifaces, seen, v), MacPath(hp, j)) == []
  {
    var scan := MacScanErrors(hp, ifaces, seen, v);
    MacScanPaths(hp, ifaces, seen, v);
    forall e | e in scan
      ensures e.path != MacPath(hp, j)
    {
      var k :| 0 <= k < |ifaces| && e.path == MacPath(hp, k);
      if e.path == MacPath(hp, j) {
        MacPathInjective(hp, j, k);
      }
    }
    ErrorsAtNone(scan, MacPath(hp, j));
  }

  /** The errors of the MAC loop tagged with interface j's path are exactly that interface's. */
  lemma {:induction false} MacScanAt(hp: Path, ifaces: seq<Interface>, seen: set<string>, v: Validators, j: nat)
    requires j < |ifaces|
    ensures ErrorsAt(MacScanErrors(hp, ifaces, seen, v), MacPath(hp, j))
         == MacErrors(MacPath(hp, j), ifaces[j].macAddress, seen + MacsOf(ifaces[..j]), v)
  {
    var n := |ifaces| - 1;
    var init := ifaces[..n];
    var scan := MacScanErrors(hp, init, seen, v);
    var last := MacErrors(MacPath(hp, n), ifaces[n].macAddress, seen + MacsOf(init), v);
    assert MacScanErrors(hp, ifaces, seen, v) == scan + last;
    ErrorsAtAppend(scan, last, MacPath(hp, j));
    MacErrorsPath(MacPath(hp, n), ifaces[n].macAddress, seen + MacsOf(init), v);
    if j == n {
      MacScanBeyond(hp, init, seen, v, j);
      ErrorsAtAll(last, MacPath(hp, j));
    } else {
      MacScanAt(hp, init, seen, v, j);
      assert init[..j] == ifaces[..j];
      assert MacPath(hp, n) != MacPath(hp, j) by {
        if MacPath(hp, n) == MacPath(hp, j) {
          MacPathInjective(hp, j, n);
        }
      }
      ErrorsAtNone(last, MacPath(hp, j));
    }
  }

  /** Every error of a host's checks is tagged below that host's path. */
  lemma HostErrorsUnder(hp: Path, h: Host, seen: set<string>, v: Validators)
    ensures AllUnder(HostErrors(hp, h, seen, v), hp)
  {
    var required := InterfacesRequired(hp, h);
    var scan := MacScanErrors(hp, h.interfaces, seen, v);
    var hints := ValidateHostRootDeviceHints(hp, h);
    var roles := ValidateRoles(hp, h);
    assert HostErrors(hp, h, seen, v) == required + scan + hints + roles;
    assert AllUnder(required, hp) by {
      assert InterfacesPath(hp)[..|hp|] == hp;
    }
    assert AllUnder(scan, hp) by {
      MacScanPaths(hp, h.interfaces, seen, v);
      forall e | e in scan
        ensures hp <= e.path
      {
        var j :| 0 <= j < |h.interfaces| && e.path == MacPath(hp, j);
        assert e.path[..|hp|] == hp;
      }
    }
    assert AllUnder(hints, hp) by {
      assert WWNExtensionPath(hp)[..|hp|] == hp;
      assert WWNVendorExtensionPath(hp)[..|hp|] == hp;
    }
    assert AllUnder(roles, hp) by {
      assert HostFieldPath(hp)[..|hp|] == hp;
    }
    AllUnderAppend(required, scan, hp);
    AllUnderAppend(required + scan, hints, hp);
    AllUnderAppend(required + scan + hints, roles, hp);
  }

  /** The errors of one host's checks at p, group by group; when only one group
      reports at p, the host's errors there are that group's. */
  lemma HostErrorsParts(hp: Path, h: Host, seen: set<string>, v: Validators, p: Path)
    ensures ErrorsAt(HostErrors(hp, h, seen, v), p)
         == ErrorsAt(InterfacesRequired(hp, h), p)
            + ErrorsAt(MacScanErrors(hp, h.interfaces, seen, v), p)
            + ErrorsAt(ValidateHostRootDeviceHints(hp, h), p)
            + ErrorsAt(ValidateRoles(hp, h), p)
    ensures var all := ErrorsAt(HostErrors(hp, h, seen, v), p);
      var a, b := ErrorsAt(InterfacesRequired(hp, h), p), ErrorsAt(MacScanErrors(hp, h.interfaces, seen, v), p);
      var d, e := ErrorsAt(ValidateHostRootDeviceHints(hp, h), p), ErrorsAt(ValidateRoles(hp, h), p);
      && (b == [] && d == [] && e == [] ==> all == a)
      && (a == [] && d == [] && e == [] ==> all == b)
      && (a == [] && b == [] && e == [] ==> all == d)
      && (a == [] && b == [] && d == [] ==> all == e)
  {
    var required := InterfacesRequired(hp, h);
    var scan := MacScanErrors(hp, h.interfaces, seen, v);
    var hints := ValidateHostRootDeviceHints(hp, h);
    var roles := ValidateRoles(hp, h);
    assert HostErrors(hp, h, seen, v) == required + scan + hints + roles;
    ErrorsAtAppend(required + scan + hints, roles, p);
    ErrorsAtAppend(required + scan, hints, p);
    ErrorsAtAppend(required, scan, p);
    FourGroups(ErrorsAt(HostErrors(hp, h, seen, v), p),
               ErrorsAt(required, p), ErrorsAt(scan, p), ErrorsAt(hints, p), ErrorsAt(roles, p));
  }

  /** The MAC loop reports only at paths of length |hp| + 3. */
  lemma MacScanElsewhere(hp: Path, ifaces: seq<Interface>, seen: set<string>, v: Validators, p: Path)
    requires |p| != |hp| + 3
    ensures ErrorsAt(MacScanErrors(hp, ifaces, seen, v), p) == []
  {
    MacScanPaths(hp, ifaces, seen, v);
    ErrorsAtNone(MacScanErrors(hp, ifaces, seen, v), p);
  }

  lemma RequiredElsewhere(hp: Path, h: Host, p: Path)
    requires p != InterfacesPath(hp)
    ensures ErrorsAt(InterfacesRequired(hp, h), p) == []
  {
    ErrorsAtNone(InterfacesRequired(hp, h), p);
  }

  lemma HintsElsewhere(hp: Path, h: Host, p: Path)
    requires p != WWNExtensionPath(hp) && p != WWNVendorExtensionPath(hp)
    ensures ErrorsAt(ValidateHostRootDeviceHints(hp, h), p) == []
  {
    ErrorsAtNone(ValidateHostRootDeviceHints(hp, h), p);
  }

  lemma RolesElsewhere(hp: Path, h: Host, p: Path)
    requires p != HostFieldPath(hp)
    ensures ErrorsAt(ValidateRoles(hp, h), p) == []
  {
    ErrorsAtNone(ValidateRoles(hp, h), p);
  }

  // ---------------------------------------------------------------------------
  // One host, path by path.

  lemma HostErrorsAtInterfaces(hp: Path, h: Host, seen: set<string>, v: Validators)
    ensures ErrorsAt(HostErrors(hp, h, seen, v), InterfacesPath(hp)) == InterfacesRequired(hp, h)
  {
    var p := InterfacesPath(hp);
    HostErrorsParts(hp, h, seen, v, p);
    ErrorsAtAll(InterfacesRequired(hp, h), p);
    MacScanElsewhere(hp, h.interfaces, seen, v, p);
    HintsElsewhere(hp, h, p);
    assert HostFieldPath(hp)[|hp|] != p[|hp|];
    RolesElsewhere(hp, h, p);
  }

  lemma HostErrorsAtMac(hp: Path, h: Host, seen: set<string>, v: Validators, j: nat)
    requires j < |h.interfaces|
    ensures ErrorsAt(HostErrors(hp, h, seen, v), MacPath(hp, j))
         == MacErrors(MacPath(hp, j), h.interfaces[j].macAddress, seen + MacsOf(h.interfaces[..j]), v)
  {
    var p := MacPath(hp, j);
    HostErrorsParts(hp, h, seen, v, p);
    RequiredElsewhere(hp, h, p);
    MacScanAt(hp, h.interfaces, seen, v, j);
    HintsElsewhere(hp, h, p);
    RolesElsewhere(hp, h, p);
  }

  /** The two root-device-hint errors, as separate groups. */
  lemma HintsSplit(hp: Path, h: Host)
    ensures ValidateHostRootDeviceHints(hp, h)
         == (if h.rootDeviceHints.wwnWithExtension != "" then [Forbidden(WWNExtensionPath(hp), WWNExtensionMsg)] else [])
            + (if h.rootDeviceHints.wwnVendorExtension != "" then [Forbidden(WWNVendorExtensionPath(hp), WWNVendorExtensionMsg)] else [])
  {
  }

  lemma HostErrorsAtWWNExtension(hp: Path, h: Host, seen: set<string>, v: Validators)
    ensures ErrorsAt(HostErrors(hp, h, seen, v), WWNExtensionPath(hp))
         == if h.rootDeviceHints.wwnWithExtension != "" then [Forbidden(WWNExtensionPath(hp), WWNExtensionMsg)] else []
  {
    var ext, vendor := WWNExtensionPath(hp), WWNVendorExtensionPath(hp);
    HostErrorsParts(hp, h, seen, v, ext);
    RequiredElsewhere(hp, h, ext);
    MacScanElsewhere(hp, h.interfaces, seen, v, ext);
    RolesElsewhere(hp, h, ext);
    var first := if h.rootDeviceHints.wwnWithExtension != "" then [Forbidden(ext, WWNExtensionMsg)] else [];
    var second := if h.rootDeviceHints.wwnVendorExtension != "" then [Forbidden(vendor, WWNVendorExtensionMsg)] else [];
    HintsSplit(hp, h);
    ErrorsAtAppend(first, second, ext);
    ErrorsAtAll(first, ext);
    assert ext[|hp| + 1] != vendor[|hp| + 1];
    ErrorsAtNone(second, ext);
  }

  lemma HostErrorsAtWWNVendorExtension(hp: Path, h: Host, seen: set<string>, v: Validators)
    ensures ErrorsAt(HostErrors(hp, h, seen, v), WWNVendorExtensionPath(hp))
         == if h.rootDeviceHints.wwnVendorExtension != "" then [Forbidden(WWNVendorExtensionPath(hp), WWNVendorExtensionMsg)] else []
  {
    var ext, vendor := WWNExtensionPath(hp), WWNVendorExtensionPath(hp);
    HostErrorsParts(hp, h, seen, v, vendor);
    RequiredElsewhere(hp, h, vendor);
    MacScanElsewhere(hp, h.interfaces, seen, v, vendor);
    RolesElsewhere(hp, h, vendor);
    var first := if h.rootDeviceHints.wwnWithExtension != "" then [Forbidden(ext, WWNExtensionMsg)] else [];
    var second := if h.rootDeviceHints.wwnVendorExtension != "" then [Forbidden(vendor, WWNVendorExtensionMsg)] else [];
    HintsSplit(hp, h);
    ErrorsAtAppend(first, second, vendor);
    assert ext[|hp| + 1] != vendor[|hp| + 1];
    ErrorsAtNone(first, vendor);
    ErrorsAtAll(second, vendor);
  }

  lemma HostErrorsAtHostField(hp: Path, h: Host, seen: set<string>, v: Validators)
    ensures ErrorsAt(HostErrors(hp, h, seen, v), HostFieldPath(hp))
         == if RoleAllowed(h.role) then [] else [Forbidden(HostFieldPath(hp), RoleMsg)]
  {
    var p := HostFieldPath(hp);
    HostErrorsParts(hp, h, seen, v, p);
    assert InterfacesPath(hp)[|hp|] != p[|hp|];
    RequiredElsewhere(hp, h, p);
    MacScanElsewhere(hp, h.interfaces, seen, v, p);
    HintsElsewhere(hp, h, p);
    ErrorsAtAll(ValidateRoles(hp, h), p);
  }

  // ---------------------------------------------------------------------------
  // The host loop, the NTP loop and the placement loop, index by index.

  lemma {:induction false} HostsErrorsPaths(hosts: seq<Host>, v: Validators)
    ensures forall e :: e in HostsErrors(hosts, v) ==>
              exists i :: 0 <= i < |hosts| && HostPath(i) <= e.path
  {
    if hosts != [] {
      var n := |hosts| - 1;
      HostsErrorsPaths(hosts[..n], v);
      HostErrorsUnder(HostPath(n), hosts[n], AllMacs(hosts[..n]), v);
    }
  }

  /** No host before index i reports below host i's path. */
  lemma HostsBefore(hosts: seq<Host>, v: Validators, i: nat, p: Path)
    requires |hosts| <= i && HostPath(i) <= p
    ensures ErrorsAt(HostsErrors(hosts, v), p) == []
  {
    HostsErrorsPaths(hosts, v);
    assert p[1] == Index(i);
    forall e | e in HostsErrors(hosts, v)
      ensures e.path != p
    {
      var k :| 0 <= k < |hosts| && HostPath(k) <= e.path;
      assert e.path[1] == Index(k);
    }
    ErrorsAtNone(HostsErrors(hosts, v), p);
  }

  /** Host n reports nothing below the path of another host i. */
  lemma OtherHost(n: nat, h: Host, seen: set<string>, v: Validators, i: nat, p: Path)
    requires n != i && HostPath(i) <= p
    ensures ErrorsAt(HostErrors(HostPath(n), h, seen, v), p) == []
  {
    HostErrorsUnder(HostPath(n), h, seen, v);
    assert p[1] == Index(i);
    assert HostPath(n)[1] != p[1];
    AllUnderElsewhere(HostErrors(HostPath(n), h, seen, v), HostPath(n), p);
  }

  /** The host loop's errors below host i's path are those of host i, checked
      against the MAC addresses of hosts 0..i-1. */
  lemma {:induction false} HostsErrorsAt(hosts: seq<Host>, v: Validators, i: nat, p: Path)
    requires i < |hosts| && HostPath(i) <= p
    ensures ErrorsAt(HostsErrors(hosts, v), p)
         == ErrorsAt(HostErrors(HostPath(i), hosts[i], AllMacs(hosts[..i]), v), p)
    decreases |hosts|, 1
  {
    var n := |hosts| - 1;
    var init := hosts[..n];
    if i == n {
      HostsErrorsSplit(hosts, v, p);
      HostsBefore(init, v, i, p);
      TwoGroups(ErrorsAt(HostsErrors(hosts, v), p), ErrorsAt(HostsErrors(init, v), p),
                ErrorsAt(HostErrors(HostPath(n), hosts[n], AllMacs(init), v), p));
    } else {
      HostsErrorsAtEarlier(hosts, v, i, p);
    }
  }

  lemma {:induction false} HostsErrorsAtEarlier(hosts: seq<Host>, v: Validators, i: nat, p: Path)
    requires i < |hosts| - 1 && HostPath(i) <= p
    ensures ErrorsAt(HostsErrors(hosts, v), p)
         == ErrorsAt(HostErrors(HostPath(i), hosts[i], AllMacs(hosts[..i]), v), p)
    decreases |hosts|, 0
  {
    var n := |hosts| - 1;
    var init := hosts[..n];
    HostsErrorsSplit(hosts, v, p);
    assert ErrorsAt(HostsErrors(hosts, v), p) == ErrorsAt(HostsErrors(init, v), p)
              + ErrorsAt(HostErrors(HostPath(n), hosts[n], AllMacs(init), v), p);
    HostsErrorsAt(init, v, i, p);
    PrefixOfPrefix(hosts, n, i);
    OtherHost(n, hosts[n], AllMacs(init), v, i, p);
    TwoGroups(ErrorsAt(HostsErrors(hosts, v), p), ErrorsAt(HostsErrors(init, v), p),
              ErrorsAt(HostErrors(HostPath(n), hosts[n], AllMacs(init), v), p));
  }

  lemma HostsErrorsSplit(hosts: seq<Host>, v: Validators, p: Path)
    requires hosts != []
    ensures ErrorsAt(HostsErrors(hosts, v), p)
         == ErrorsAt(HostsErrors(hosts[..|hosts| - 1], v), p)
            + ErrorsAt(HostErrors(HostPath(|hosts| - 1), hosts[|hosts| - 1], AllMacs(hosts[..|hosts| - 1]), v), p)
  {
    var n := |hosts| - 1;
    var front := HostsErrors(hosts[..n], v);
    var last := HostErrors(HostPath(n), hosts[n], AllMacs(hosts[..n]), v);
    assert HostsErrors(hosts, v) == front + last;
    ErrorsAtAppend(front, last, p);
  }

  lemma HostsElsewhere(hosts: seq<Host>, v: Validators, p: Path)
    requires |p| < 2 || p[0] != Child(HostsField)
    ensures ErrorsAt(HostsErrors(hosts, v), p) == []
  {
    HostsErrorsPaths(hosts, v);
    forall e | e in HostsErrors(hosts, v)
      ensures e.path != p
    {
      var k :| 0 <= k < |hosts| && HostPath(k) <= e.path;
      assert e.path[0] == Child(HostsField);
    }
    ErrorsAtNone(HostsErrors(hosts, v), p);
  }

  lemma {:induction false} NTPSourcesPaths(sources: seq<string>, v: Validators)
    ensures forall e :: e in NTPSourcesErrors(sources, v) ==>
              exists k :: 0 <= k < |sources| && e.path == NTPSourcePath(k)
  {
    if sources != [] {
      NTPSourcesPaths(sources[..|sources| - 1], v);
    }
  }

  lemma {:induction false} NTPSourcesAt(sources: seq<string>, v: Validators, k: nat)
    requires k < |sources|
    ensures ErrorsAt(NTPSourcesErrors(sources, v), NTPSourcePath(k)) == NTPSourceErrors(k, sources[k], v)
  {
    var n := |sources| - 1;
    var init := sources[..n];
    var p := NTPSourcePath(k);
    var front := NTPSourcesErrors(init, v);
    var last := NTPSourceErrors(n, sources[n], v);
    assert NTPSourcesErrors(sources, v) == front + last;
    ErrorsAtAppend(front, last, p);
    assert p[1] == Index(k);
    if k == n {
      NTPSourcesPaths(init, v);
      forall e | e in front
        ensures e.path != p
      {
        var m :| 0 <= m < |init| && e.path == NTPSourcePath(m);
        assert e.path[1] == Index(m);
      }
      ErrorsAtNone(front, p);
      ErrorsAtAll(last, p);
    } else {
      NTPSourcesAt(init, v, k);
      assert NTPSourcePath(n)[1] == Index(n);
      ErrorsAtNone(last, p);
    }
    TwoGroups(ErrorsAt(NTPSourcesErrors(sources, v), p), ErrorsAt(front, p), ErrorsAt(last, p));
  }

  lemma NTPSourcesElsewhere(sources: seq<string>, v: Validators, p: Path)
    requires |p| != 2 || p[0] != Child(AdditionalNTPSourcesField)
    ensures ErrorsAt(NTPSourcesErrors(sources, v), p) == []
  {
    NTPSourcesPaths(sources, v);
    ErrorsAtNone(NTPSourcesErrors(sources, v), p);
  }

  lemma {:induction false} PlacementPaths(rendezvousIP: string, hosts: seq<Host>)
    ensures forall e :: e in RendezvousPlacementErrors(rendezvousIP, hosts) ==>
              exists i :: 0 <= i < |hosts| && e.path == HostFieldPath(HostPath(i))
  {
    if hosts != [] {
      PlacementPaths(rendezvousIP, hosts[..|hosts| - 1]);
    }
  }

  /** No host before index i has a placement error at host i's path. */
  lemma PlacementBefore(rendezvousIP: string, hosts: seq<Host>, i: nat)
    requires |hosts| <= i
    ensures ErrorsAt(RendezvousPlacementErrors(rendezvousIP, hosts), HostFieldPath(HostPath(i))) == []
  {
    var p := HostFieldPath(HostPath(i));
    PlacementPaths(rendezvousIP, hosts);
    assert p[1] == Index(i);
    forall e | e in RendezvousPlacementErrors(rendezvousIP, hosts)
      ensures e.path != p
    {
      var m :| 0 <= m < |hosts| && e.path == HostFieldPath(HostPath(m));
      assert e.path[1] == Index(m);
    }
    ErrorsAtNone(RendezvousPlacementErrors(rendezvousIP, hosts), p);
  }

  /** The placement errors at p: those of the hosts before the last, then the last's. */
  lemma PlacementSplit(rendezvousIP: string, hosts: seq<Host>, p: Path)
    requires hosts != []
    ensures ErrorsAt(RendezvousPlacementErrors(rendezvousIP, hosts), p)
         == ErrorsAt(RendezvousPlacementErrors(rendezvousIP, hosts[..|hosts| - 1]), p)
            + ErrorsAt(PlacementErrors(|hosts| - 1, rendezvousIP, hosts[|hosts| - 1]), p)
  {
    var n := |hosts| - 1;
    var front := RendezvousPlacementErrors(rendezvousIP, hosts[..n]);
    var last := PlacementErrors(n, rendezvousIP, hosts[n]);
    assert RendezvousPlacementErrors(rendezvousIP, hosts) == front + last;
    ErrorsAtAppend(front, last, p);
  }

  lemma {:induction false} PlacementAt(rendezvousIP: string, hosts: seq<Host>, i: nat)
    requires i < |hosts|
    ensures ErrorsAt(RendezvousPlacementErrors(rendezvousIP, hosts), HostFieldPath(HostPath(i)))
         == PlacementErrors(i, rendezvousIP, hosts[i])
  {
    var n := |hosts| - 1;
    var init := hosts[..n];
    var p := HostFieldPath(HostPath(i));
    var front := ErrorsAt(RendezvousPlacementErrors(rendezvousIP, init), p);
    var last := ErrorsAt(PlacementErrors(n, rendezvousIP, hosts[n]), p);
    PlacementSplit(rendezvousIP, hosts, p);
    assert ErrorsAt(RendezvousPlacementErrors(rendezvousIP, hosts), p) == front + last;
    if i == n {
      PlacementBefore(rendezvousIP, init, i);
      ErrorsAtAll(PlacementErrors(n, rendezvousIP, hosts[n]), p);
    } else {
      PlacementAt(rendezvousIP, init, i);
      PrefixOfPrefix(hosts, n, i);
      assert p[1] != HostFieldPath(HostPath(n))[1];
      ErrorsAtNone(PlacementErrors(n, rendezvousIP, hosts[n]), p);
    }
    TwoGroups(front + last, front, last);
  }

  lemma PlacementElsewhere(rendezvousIP: string, hosts: seq<Host>, p: Path)
    requires |p| != 3 || p[2] != Child(HostField)
    ensures ErrorsAt(RendezvousPlacementErrors(rendezvousIP, hosts), p) == []
  {
    PlacementPaths(rendezvousIP, hosts);
    ErrorsAtNone(RendezvousPlacementErrors(rendezvousIP, hosts), p);
  }

  lemma AgentErrorsParts(c: Config, v: Validators, p: Path)
    ensures ErrorsAt(AgentErrors(c, v), p)
         == ErrorsAt(ValidateRendezvousIP(c.rendezvousIP, v), p)
            + ErrorsAt(HostsErrors(c.hosts, v), p)
            + ErrorsAt(NTPSourcesErrors(c.additionalNTPSources, v), p)
            + ErrorsAt(RendezvousPlacementErrors(c.rendezvousIP, c.hosts), p)
  {
    var a := ValidateRendezvousIP(c.rendezvousIP, v);
    var b := HostsErrors(c.hosts, v);
    var d := NTPSourcesErrors(c.additionalNTPSources, v);
    var e := RendezvousPlacementErrors(c.rendezvousIP, c.hosts);
    assert AgentErrors(c, v) == a + b + d + e;
    ErrorsAtAppend(a + b + d, e, p);
    ErrorsAtAppend(a + b, d, p);
    ErrorsAtAppend(a, b, p);
  }

  lemma RendezvousIPElsewhere(rendezvousIP: string, v: Validators, p: Path)
    requires p != RendezvousIPPath
    ensures ErrorsAt(ValidateRendezvousIP(rendezvousIP, v), p) == []
  {
    ErrorsAtNone(ValidateRendezvousIP(rendezvousIP, v), p);
  }

  /** Below host i's path, the whole validator reports what host i's checks report,
      plus, at `Hosts[i].Host`, the placement errors. */
  lemma AgentErrorsAtHost(c: Config, v: Validators, i: nat, p: Path)
    requires i < |c.hosts| && HostPath(i) <= p
    ensures ErrorsAt(AgentErrors(c, v), p)
         == ErrorsAt(HostErrors(HostPath(i), c.hosts[i], AllMacs(c.hosts[..i]), v), p)
            + ErrorsAt(RendezvousPlacementErrors(c.rendezvousIP, c.hosts), p)
  {
    var hp := HostPath(i);
    assert |hp| == 2 && hp[0] == Child(HostsField);
    assert |p| >= 2 && p[0] == hp[0];
    assert p != RendezvousIPPath;
    AgentErrorsParts(c, v, p);
    RendezvousIPElsewhere(c.rendezvousIP, v, p);
    HostsErrorsAt(c.hosts, v, i, p);
    NTPSourcesElsewhere(c.additionalNTPSources, v, p);
    FourGroups(ErrorsAt(AgentErrors(c, v), p),
               ErrorsAt(ValidateRendezvousIP(c.rendezvousIP, v), p),
               ErrorsAt(HostsErrors(c.hosts, v), p),
               ErrorsAt(NTPSourcesErrors(c.additionalNTPSources, v), p),
               ErrorsAt(RendezvousPlacementErrors(c.rendezvousIP, c.hosts), p));
  }

  // ---------------------------------------------------------------------------
  // The whole validator, path by path.

  /** rendezvousIP: one Invalid error when a non-empty address is rejected, none otherwise. */
  lemma RendezvousIPErrorsAt(c: Config, v: Validators)
    ensures ErrorsAt(AgentErrors(c, v), RendezvousIPPath)
         == if c.rendezvousIP != "" && v.ip(c.rendezvousIP).Some?
            then [Invalid(RendezvousIPPath, c.rendezvousIP, CheckerMsg(v.ip(c.rendezvousIP).value))]
            else []
  {
    var p := RendezvousIPPath;
    AgentErrorsParts(c, v, p);
    ErrorsAtAll(ValidateRendezvousIP(c.rendezvousIP, v), p);
    HostsElsewhere(c.hosts, v, p);
    NTPSourcesElsewhere(c.additionalNTPSources, v, p);
    PlacementElsewhere(c.rendezvousIP, c.hosts, p);
    FourGroups(ErrorsAt(AgentErrors(c, v), p),
               ErrorsAt(ValidateRendezvousIP(c.rendezvousIP, v), p),
               ErrorsAt(HostsErrors(c.hosts, v), p),
               ErrorsAt(NTPSourcesErrors(c.additionalNTPSources, v), p),
               ErrorsAt(RendezvousPlacementErrors(c.rendezvousIP, c.hosts), p));
  }

  /** Hosts[i].Interfaces: exactly one Required error when host i has no interface, none otherwise. */
  lemma InterfacesRequiredAt(c: Config, v: Validators, i: nat)
    requires i < |c.hosts|
    ensures ErrorsAt(AgentErrors(c, v), InterfacesPath(HostPath(i)))
         == if |c.hosts[i].interfaces| == 0
            then [Required(InterfacesPath(HostPath(i)), InterfacesRequiredMsg)]
            else []
  {
    var p := InterfacesPath(HostPath(i));
    AgentErrorsAtHost(c, v, i, p);
    HostErrorsAtInterfaces(HostPath(i), c.hosts[i], AllMacs(c.hosts[..i]), v);
    PlacementElsewhere(c.rendezvousIP, c.hosts, p);
  }

  /** Hosts[i].Interfaces[j].macAddress: an empty address gets exactly one Required error;
      a non-empty one gets the MAC checker's error when it is rejected, followed by a
      duplicate error exactly when the identical string occurs at an earlier interface
      (of this host or of an earlier one). A syntactically invalid address still counts
      as seen, so it can carry both errors. */
  lemma MacAddressErrorsAt(c: Config, v: Validators, i: nat, j: nat)
    requires i < |c.hosts| && j < |c.hosts[i].interfaces|
    ensures (var p := MacPath(HostPath(i), j);
             var mac := c.hosts[i].interfaces[j].macAddress;
             ErrorsAt(AgentErrors(c, v), p)
             == (if mac == "" then [Required(p, MacRequiredMsg)]
                 else InvalidIfRejected(p, mac, v.mac(mac))
                      + (if OccursBefore(c.hosts, i, j, mac) then [Invalid(p, mac, DuplicateMacMsg)] else [])))
  {
    var p := MacPath(HostPath(i), j);
    var mac := c.hosts[i].interfaces[j].macAddress;
    AgentErrorsAtHost(c, v, i, p);
    HostErrorsAtMac(HostPath(i), c.hosts[i], AllMacs(c.hosts[..i]), v, j);
    PlacementElsewhere(c.rendezvousIP, c.hosts, p);
    if mac != "" {
      SeenBeforeIff(c.hosts, i, j, mac);
    }
  }

  /** Hosts[i].RootDeviceHints.WWNWithExtension: one Forbidden error when that hint is set. */
  lemma WWNExtensionErrorsAt(c: Config, v: Validators, i: nat)
    requires i < |c.hosts|
    ensures ErrorsAt(AgentErrors(c, v), WWNExtensionPath(HostPath(i)))
         == if c.hosts[i].rootDeviceHints.wwnWithExtension != ""
            then [Forbidden(WWNExtensionPath(HostPath(i)), WWNExtensionMsg)] else []
  {
    var p := WWNExtensionPath(HostPath(i));
    AgentErrorsAtHost(c, v, i, p);
    HostErrorsAtWWNExtension(HostPath(i), c.hosts[i], AllMacs(c.hosts[..i]), v);
    PlacementElsewhere(c.rendezvousIP, c.hosts, p);
  }

  /** Hosts[i].RootDeviceHints.WWNVendorExtension: one Forbidden error when that hint is set. */
  lemma WWNVendorExtensionErrorsAt(c: Config, v: Validators, i: nat)
    requires i < |c.hosts|
    ensures ErrorsAt(AgentErrors(c, v), WWNVendorExtensionPath(HostPath(i)))
         == if c.hosts[i].rootDeviceHints.wwnVendorExtension != ""
            then [Forbidden(WWNVendorExtensionPath(HostPath(i)), WWNVendorExtensionMsg)] else []
  {
    var p := WWNVendorExtensionPath(HostPath(i));
    AgentErrorsAtHost(c, v, i, p);
    HostErrorsAtWWNVendorExtension(HostPath(i), c.hosts[i], AllMacs(c.hosts[..i]), v);
    PlacementElsewhere(c.rendezvousIP, c.hosts, p);
  }

  /** Hosts[i].Host, where both the role rule and the placement rule report: one
      Forbidden error for a role other than unset, master or worker, followed by one
      when the rendezvous IP is set, occurs in the host's network config and the
      host's role is set and is not master. */
  lemma HostFieldErrorsAt(c: Config, v: Validators, i: nat)
    requires i < |c.hosts|
    ensures (var h := c.hosts[i];
             var p := HostFieldPath(HostPath(i));
             ErrorsAt(AgentErrors(c, v), p)
             == (if RoleAllowed(h.role) then [] else [Forbidden(p, RoleMsg)])
                + (if c.rendezvousIP != "" && Contains(h.networkConfigRaw, c.rendezvousIP)
                      && h.role != "" && h.role != "master"
                   then [Forbidden(p, PlacementMsg(h.hostname))] else []))
  {
    var p := HostFieldPath(HostPath(i));
    AgentErrorsAtHost(c, v, i, p);
    HostErrorsAtHostField(HostPath(i), c.hosts[i], AllMacs(c.hosts[..i]), v);
    PlacementAt(c.rendezvousIP, c.hosts, i);
  }

  /** AdditionalNTPSources[k]: exactly one Invalid error when the source is neither a
      domain name nor an IP, none otherwise. */
  lemma NTPSourceErrorsAt(c: Config, v: Validators, k: nat)
    requires k < |c.additionalNTPSources|
    ensures (var s := c.additionalNTPSources[k];
             ErrorsAt(AgentErrors(c, v), NTPSourcePath(k))
             == if v.domainName(s).Some? && v.ip(s).Some?
                then [Invalid(NTPSourcePath(k), s, NTPSourceMsg)] else [])
  {
    var p := NTPSourcePath(k);
    AgentErrorsParts(c, v, p);
    RendezvousIPElsewhere(c.rendezvousIP, v, p);
    HostsElsewhere(c.hosts, v, p);
    NTPSourcesAt(c.additionalNTPSources, v, k);
    PlacementElsewhere(c.rendezvousIP, c.hosts, p);
  }
}
