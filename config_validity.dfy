/** When the validator accepts a configuration: the rules of agent_config.go stated
    as one predicate over the configuration, and the proof that the validator's
    error list is empty exactly when the predicate holds, so that finish fails
    exactly when some rule is broken. */
module ConfigValidity {
  import opened Wrappers
  import opened Field
  import opened AgentTypes
  import opened Text
  import opened ValidationRules
  import opened MacProperties
  import opened ValidationProperties

  /** Interface j of host i has an address that the MAC checker accepts and that no
      earlier interface, of this host or of an earlier one, declares. */
  ghost predicate MacValid(hosts: seq<Host>, i: nat, j: nat, v: Validators)
    requires i < |hosts| && j < |hosts[i].interfaces|
  {
    var mac := hosts[i].interfaces[j].macAddress;
    mac != "" && v.mac(mac).None? && !OccursBefore(hosts, i, j, mac)
  }

  /** Host i: at least one interface, every address valid and new, no WWN extension
      hint, an allowed role, and no rendezvous IP in the network config of a host
      whose role is set and is not master. */
  ghost predicate HostValid(c: Config, v: Validators, i: nat)
    requires i < |c.hosts|
  {
    var h := c.hosts[i];
    && |h.interfaces| > 0
    && (forall j :: 0 <= j < |h.interfaces| ==> MacValid(c.hosts, i, j, v))
    && h.rootDeviceHints.wwnWithExtension == ""
    && h.rootDeviceHints.wwnVendorExtension == ""
    && RoleAllowed(h.role)
    && !MisplacedRendezvousIP(c.rendezvousIP, h)
  }

  /** An NTP source is a domain name or an IP address. */
  predicate NTPSourceValid(source: string, v: Validators)
  {
    v.domainName(source).None? || v.ip(source).None?
  }

  /** Every rule of the validator holds. */
  ghost predicate ConfigValid(c: Config, v: Validators)
  {
    && (c.rendezvousIP == "" || v.ip(c.rendezvousIP).None?)
    && (forall i :: 0 <= i < |c.hosts| ==> HostValid(c, v, i))
    && (forall k :: 0 <= k < |c.additionalNTPSources| ==> NTPSourceValid(c.additionalNTPSources[k], v))
  }

  // ---------------------------------------------------------------------------
  // The paths errors are tagged with.

  /** The paths the checks of one host report at. */
  ghost predicate HostCheckPath(h: Host, hp: Path, p: Path)
  {
    || p == InterfacesPath(hp)
    || (exists j :: 0 <= j < |h.interfaces| && p == MacPath(hp, j))
    || p == WWNExtensionPath(hp)
    || p == WWNVendorExtensionPath(hp)
    || p == HostFieldPath(hp)
  }

  /** The paths the validator reports at. */
  ghost predicate CheckPath(c: Config, p: Path)
  {
    || p == RendezvousIPPath
    || (exists i :: 0 <= i < |c.hosts| && HostCheckPath(c.hosts[i], HostPath(i), p))
    || (exists k :: 0 <= k < |c.additionalNTPSources| && p == NTPSourcePath(k))
  }

  lemma HostErrorsCheckPaths(hp: Path, h: Host, seen: set<string>, v: Validators)
    ensures forall e :: e in HostErrors(hp, h, seen, v) ==> HostCheckPath(h, hp, e.path)
  {
    var required := InterfacesRequired(hp, h);
    var scan := MacScanErrors(hp, h.interfaces, seen, v);
    var hints := ValidateHostRootDeviceHints(hp, h);
    var roles := ValidateRoles(hp, h);
    assert HostErrors(hp, h, seen, v) == required + scan + hints + roles;
    MacScanPaths(hp, h.interfaces, seen, v);
  }

  lemma {:induction false} HostsErrorsCheckPaths(hosts: seq<Host>, v: Validators)
    ensures forall e :: e in HostsErrors(hosts, v) ==>
              exists i :: 0 <= i < |hosts| && HostCheckPath(hosts[i], HostPath(i), e.path)
  {
    if hosts != [] {
      var n := |hosts| - 1;
      var init := hosts[..n];
      HostsErrorsCheckPaths(init, v);
      HostErrorsCheckPaths(HostPath(n), hosts[n], AllMacs(init), v);
      assert forall k :: 0 <= k < n ==> init[k] == hosts[k];
    }
  }

  /** Every error the validator reports is tagged with one of its check paths. */
  lemma AgentErrorsCheckPaths(c: Config, v: Validators)
    ensures forall e :: e in AgentErrors(c, v) ==> CheckPath(c, e.path)
  {
    var a := ValidateRendezvousIP(c.rendezvousIP, v);
    var b := HostsErrors(c.hosts, v);
    var d := NTPSourcesErrors(c.additionalNTPSources, v);
    var e := RendezvousPlacementErrors(c.rendezvousIP, c.hosts);
    assert AgentErrors(c, v) == a + b + d + e;
    HostsErrorsCheckPaths(c.hosts, v);
    NTPSourcesPaths(c.additionalNTPSources, v);
    PlacementPaths(c.rendezvousIP, c.hosts);
  }

  // ---------------------------------------------------------------------------
  // Empty error list iff every rule holds.

  /** A host of a configuration the validator reports nothing about satisfies the host rules. */
  lemma HostValidWhenNoErrors(c: Config, v: Validators, i: nat)
    requires AgentErrors(c, v) == [] && i < |c.hosts|
    ensures HostValid(c, v, i)
  {
    InterfacesRequiredAt(c, v, i);
    WWNExtensionErrorsAt(c, v, i);
    WWNVendorExtensionErrorsAt(c, v, i);
    HostFieldErrorsAt(c, v, i);
    forall j | 0 <= j < |c.hosts[i].interfaces|
      ensures MacValid(c.hosts, i, j, v)
    {
      MacAddressErrorsAt(c, v, i, j);
    }
  }

  /** A configuration the validator reports nothing about satisfies every rule. */
  lemma ValidWhenNoErrors(c: Config, v: Validators)
    requires AgentErrors(c, v) == []
    ensures ConfigValid(c, v)
  {
    RendezvousIPErrorsAt(c, v);
    forall i | 0 <= i < |c.hosts|
      ensures HostValid(c, v, i)
    {
      HostValidWhenNoErrors(c, v, i);
    }
    forall k | 0 <= k < |c.additionalNTPSources|
      ensures NTPSourceValid(c.additionalNTPSources[k], v)
    {
      NTPSourceErrorsAt(c, v, k);
    }
  }

  /** At a check path of a valid configuration the validator reports nothing. */
  lemma NoErrorAtCheckPath(c: Config, v: Validators, p: Path)
    requires ConfigValid(c, v) && CheckPath(c, p)
    ensures ErrorsAt(AgentErrors(c, v), p) == []
  {
    if p == RendezvousIPPath {
      RendezvousIPErrorsAt(c, v);
    } else if exists k :: 0 <= k < |c.additionalNTPSources| && p == NTPSourcePath(k) {
      var k :| 0 <= k < |c.additionalNTPSources| && p == NTPSourcePath(k);
      NTPSourceErrorsAt(c, v, k);
    } else {
      var i :| 0 <= i < |c.hosts| && HostCheckPath(c.hosts[i], HostPath(i), p);
      var hp := HostPath(i);
      assert HostValid(c, v, i);
      if p == InterfacesPath(hp) {
        InterfacesRequiredAt(c, v, i);
      } else if p == WWNExtensionPath(hp) {
        WWNExtensionErrorsAt(c, v, i);
      } else if p == WWNVendorExtensionPath(hp) {
        WWNVendorExtensionErrorsAt(c, v, i);
      } else if p == HostFieldPath(hp) {
        HostFieldErrorsAt(c, v, i);
      } else {
        var j :| 0 <= j < |c.hosts[i].interfaces| && p == MacPath(hp, j);
        assert MacValid(c.hosts, i, j, v);
        MacAddressErrorsAt(c, v, i, j);
      }
    }
  }

  /** A configuration satisfying every rule gets no error. */
  lemma NoErrorsWhenValid(c: Config, v: Validators)
    requires ConfigValid(c, v)
    ensures AgentErrors(c, v) == []
  {
    var errs := AgentErrors(c, v);
    if errs != [] {
      FirstAtOwnPath(errs);
      AgentErrorsCheckPaths(c, v);
      assert errs[0] in errs;
      NoErrorAtCheckPath(c, v, errs[0].path);
      assert false;
    }
  }

  /** finish fails exactly when some rule is broken. */
  lemma NoErrorsIffValid(c: Config, v: Validators)
    ensures AgentErrors(c, v) == [] <==> ConfigValid(c, v)
  {
    if AgentErrors(c, v) == [] {
      ValidWhenNoErrors(c, v);
    }
    if ConfigValid(c, v) {
      NoErrorsWhenValid(c, v);
    }
  }
}
