/** What the shared MAC registry holds at each point of the host scan: exactly
    the non-empty addresses declared earlier, in host-then-interface order. */
module MacProperties {
  import opened AgentTypes
  import opened ValidationRules

  /** `mac` is the address of some interface declared before interface j of host i. */
  ghost predicate OccursBefore(hosts: seq<Host>, i: nat, j: nat, mac: string)
  {
    exists p, q :: 0 <= p < |hosts| && 0 <= q < |hosts[p].interfaces|
                   && (p < i || (p == i && q < j))
                   && hosts[p].interfaces[q].macAddress == mac
  }

  ghost predicate DeclaredIn(ifaces: seq<Interface>, mac: string)
  {
    exists q :: 0 <= q < |ifaces| && ifaces[q].macAddress == mac
  }

  ghost predicate DeclaredInAny(hosts: seq<Host>, mac: string)
  {
    exists p, q :: 0 <= p < |hosts| && 0 <= q < |hosts[p].interfaces|
                   && hosts[p].interfaces[q].macAddress == mac
  }

  /** The interface scan adds exactly the non-empty addresses of the interfaces. */
  lemma {:induction false} MacsOfIff(ifaces: seq<Interface>, mac: string)
    ensures mac in MacsOf(ifaces) <==> mac != "" && DeclaredIn(ifaces, mac)
  {
    if ifaces != [] {
      var n := |ifaces| - 1;
      var init := ifaces[..n];
      MacsOfIff(init, mac);
      if mac in MacsOf(init) {
        var q :| 0 <= q < |init| && init[q].macAddress == mac;
        assert ifaces[q].macAddress == mac;
      }
      if mac != "" && DeclaredIn(ifaces, mac) {
        var q :| 0 <= q < |ifaces| && ifaces[q].macAddress == mac;
        if q < n {
          assert init[q].macAddress == mac;
          assert DeclaredIn(init, mac);
        }
      }
    }
  }

  /** The host scan's registry holds exactly the non-empty addresses of all hosts scanned. */
  lemma {:induction false} AllMacsIff(hosts: seq<Host>, mac: string)
    ensures mac in AllMacs(hosts) <==> mac != "" && DeclaredInAny(hosts, mac)
  {
    if hosts != [] {
      var n := |hosts| - 1;
      var init := hosts[..n];
      AllMacsIff(init, mac);
      MacsOfIff(hosts[n].interfaces, mac);
      if mac in AllMacs(init) {
        var p, q :| 0 <= p < |init| && 0 <= q < |init[p].interfaces| && init[p].interfaces[q].macAddress == mac;
        assert hosts[p].interfaces[q].macAddress == mac;
      }
      if mac in MacsOf(hosts[n].interfaces) {
        var q :| 0 <= q < |hosts[n].interfaces| && hosts[n].interfaces[q].macAddress == mac;
        assert hosts[n].interfaces[q].macAddress == mac;
      }
      if mac != "" && DeclaredInAny(hosts, mac) {
        var p, q :| 0 <= p < |hosts| && 0 <= q < |hosts[p].interfaces| && hosts[p].interfaces[q].macAddress == mac;
        if p < n {
          assert init[p].interfaces[q].macAddress == mac;
          assert DeclaredInAny(init, mac);
        } else {
          assert DeclaredIn(hosts[n].interfaces, mac);
        }
      }
    }
  }

  /** The registry consulted for interface j of host i (the addresses of hosts 0..i-1
      and of interfaces 0..j-1 of host i) holds a non-empty address exactly when
      that address occurs earlier in host-then-interface order. */
  lemma SeenBeforeIff(hosts: seq<Host>, i: nat, j: nat, mac: string)
    requires i < |hosts| && j <= |hosts[i].interfaces|
    requires mac != ""
    ensures mac in AllMacs(hosts[..i]) + MacsOf(hosts[i].interfaces[..j]) <==> OccursBefore(hosts, i, j, mac)
  {
    var prior := hosts[..i];
    var ifaces := hosts[i].interfaces[..j];
    AllMacsIff(prior, mac);
    MacsOfIff(ifaces, mac);
    if mac in AllMacs(prior) {
      var p, q :| 0 <= p < |prior| && 0 <= q < |prior[p].interfaces| && prior[p].interfaces[q].macAddress == mac;
      assert hosts[p].interfaces[q].macAddress == mac;
    }
    if mac in MacsOf(ifaces) {
      var q :| 0 <= q < |ifaces| && ifaces[q].macAddress == mac;
      assert hosts[i].interfaces[q].macAddress == mac;
    }
    if OccursBefore(hosts, i, j, mac) {
      var p, q :| 0 <= p < |hosts| && 0 <= q < |hosts[p].interfaces|
                  && (p < i || (p == i && q < j)) && hosts[p].interfaces[q].macAddress == mac;
      if p < i {
        assert prior[p].interfaces[q].macAddress == mac;
      } else {
        assert ifaces[q].macAddress == mac;
      }
    }
  }

  /** The first occurrence of an address is never a repeat. */
  lemma FirstOccurrenceNotSeen(hosts: seq<Host>, i: nat, j: nat)
    requires i < |hosts| && j < |hosts[i].interfaces|
    requires hosts[i].interfaces[j].macAddress != ""
    requires !OccursBefore(hosts, i, j, hosts[i].interfaces[j].macAddress)
    ensures hosts[i].interfaces[j].macAddress !in AllMacs(hosts[..i]) + MacsOf(hosts[i].interfaces[..j])
  {
    SeenBeforeIff(hosts, i, j, hosts[i].interfaces[j].macAddress);
  }
}
