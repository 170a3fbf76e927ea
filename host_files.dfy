/** HostConfigFiles of agent_config.go: the per-host files the agent installer
    client reads, as a map from "<directory>/<file>" to the file's content.

    The functions here specify the map; the method AgentConfigAsset.AgentConfig.HostConfigFiles
    builds it with the source's loops and is proved to return what they specify. */
module HostFiles {
  import opened Wrappers
  import opened AgentTypes
  import opened Text
  import opened Seqs

  const MacAddressesFile: string := "mac_addresses"
  const RootDeviceHintsFile: string := "root-device-hints.yaml"
  const RoleFile: string := "role"
  /** What the YAML serialiser produces for hints with no field set. */
  const EmptyHintsYaml: string := "{}\n"

  /** The serialiser of root device hints (yaml.Marshal), whose body is not part of
      this model: the YAML text, or the error message. */
  type HintsMarshaller = RootDeviceHints -> Result<string, string>

  /** The directory of host i: its hostname, or `host-<i>` when it has none. */
  function DirName(i: nat, h: Host): string
  {
    if h.hostname != "" then h.hostname else "host-" + DecimalString(i)
  }

  /** filepath.Join(dir, file), without the path cleaning. */
  function FilePath(dir: string, file: string): string
  {
    dir + "/" + file
  }

  /** One line of mac_addresses: the address lower-cased, then a newline. */
  function MacLine(iface: Interface): string
  {
    Lower(iface.macAddress) + "\n"
  }

  /** The lines of mac_addresses, one per interface, in interface order. */
  function MacLines(ifaces: seq<Interface>): (lines: seq<string>)
    ensures |lines| == |ifaces|
  {
    if ifaces == [] then [] else MacLines(ifaces[..|ifaces| - 1]) + [MacLine(ifaces[|ifaces| - 1])]
  }

  /** Whether the serialised hints are worth a file: non-empty and not `{}`. */
  predicate HintsWorthWriting(rdh: string)
  {
    |rdh| > 0 && rdh != EmptyHintsYaml
  }

  /** The files of host i, with `rdh` its serialised root device hints, written
      into `files` in the source's order: mac_addresses, root-device-hints.yaml, role. */
  function AddHost(files: map<string, string>, i: nat, h: Host, rdh: string): map<string, string>
  {
    var dir := DirName(i, h);
    var withMacs := if |h.interfaces| > 0 then files[FilePath(dir, MacAddressesFile) := Concat(MacLines(h.interfaces))] else files;
    var withHints := if HintsWorthWriting(rdh) then withMacs[FilePath(dir, RootDeviceHintsFile) := rdh] else withMacs;
    if |h.role| > 0 then withHints[FilePath(dir, RoleFile) := h.role] else withHints
  }

  /** The files host i contributes on its own. */
  function HostEntries(i: nat, h: Host, rdh: string): map<string, string>
  {
    AddHost(map[], i, h, rdh)
  }

  /** The loop of HostConfigFiles over `hosts`: the map so far, or the first
      serialiser error, which discards the map. */
  function FilesOf(hosts: seq<Host>, marshal: HintsMarshaller): Result<map<string, string>, string>
  {
    if hosts == [] then Ok(map[])
    else
      var n := |hosts| - 1;
      match FilesOf(hosts[..n], marshal)
      case Err(e) => Err(e)
      case Ok(files) =>
        match marshal(hosts[n].rootDeviceHints)
        case Err(e) => Err(e)
        case Ok(rdh) => Ok(AddHost(files, n, hosts[n], rdh))
  }

  /** HostConfigFiles: no configuration yields no file and no error. */
  function DeriveHostFiles(config: Option<Config>, marshal: HintsMarshaller): Result<map<string, string>, string>
  {
    match config
    case None => Ok(map[])
    case Some(c) => FilesOf(c.hosts, marshal)
  }

  // ---------------------------------------------------------------------------
  // One host.

  /** The three file names of one directory are three different keys. */
  lemma FilePathsDistinct(dir: string)
    ensures FilePath(dir, MacAddressesFile) != FilePath(dir, RootDeviceHintsFile)
    ensures FilePath(dir, MacAddressesFile) != FilePath(dir, RoleFile)
    ensures FilePath(dir, RootDeviceHintsFile) != FilePath(dir, RoleFile)
  {
    assert |FilePath(dir, MacAddressesFile)| == |dir| + 14;
    assert |FilePath(dir, RootDeviceHintsFile)| == |dir| + 23;
    assert |FilePath(dir, RoleFile)| == |dir| + 5;
  }

  /** Host i's own files: mac_addresses exactly when it has an interface, holding
      its lower-cased addresses line by line; root-device-hints.yaml exactly when
      the serialised hints are non-empty and not `{}`, holding them unchanged;
      role exactly when the role is set, holding the role with no newline; and no
      other file, all in the host's directory. */
  lemma HostEntriesContents(i: nat, h: Host, rdh: string)
    ensures var m, dir := HostEntries(i, h, rdh), DirName(i, h);
      && (FilePath(dir, MacAddressesFile) in m <==> |h.interfaces| > 0)
      && (FilePath(dir, MacAddressesFile) in m ==> m[FilePath(dir, MacAddressesFile)] == Concat(MacLines(h.interfaces)))
      && (FilePath(dir, RootDeviceHintsFile) in m <==> HintsWorthWriting(rdh))
      && (FilePath(dir, RootDeviceHintsFile) in m ==> m[FilePath(dir, RootDeviceHintsFile)] == rdh)
      && (FilePath(dir, RoleFile) in m <==> |h.role| > 0)
      && (FilePath(dir, RoleFile) in m ==> m[FilePath(dir, RoleFile)] == h.role)
      && (forall key :: key in m ==>
            key == FilePath(dir, MacAddressesFile) || key == FilePath(dir, RootDeviceHintsFile)
            || key == FilePath(dir, RoleFile))
  {
    FilePathsDistinct(DirName(i, h));
  }

  /** Writing a host's files over a map is overriding the map with the host's own files. */
  lemma AddHostOverrides(files: map<string, string>, i: nat, h: Host, rdh: string)
    ensures AddHost(files, i, h, rdh) == files + HostEntries(i, h, rdh)
  {
    FilePathsDistinct(DirName(i, h));
  }

  /** Line k of mac_addresses is interface k's address lower-cased, followed by a
      newline, and starts right after the lines before it; the file holds no
      upper-case letter. */
  lemma MacAddressesContent(ifaces: seq<Interface>, k: nat)
    requires k < |ifaces|
    ensures var lines := MacLines(ifaces);
      && OccursAt(Concat(lines), Lower(ifaces[k].macAddress) + "\n", SumOfLengths(lines[..k]))
      && forall c :: 0 <= c < |Concat(lines)| ==> !IsUpper(Concat(lines)[c])
  {
    var lines := MacLines(ifaces);
    MacLineAt(ifaces, k);
    ConcatPieces(lines, k);
    forall p, c | 0 <= p < |lines| && 0 <= c < |lines[p]|
      ensures !IsUpper(lines[p][c])
    {
      MacLineAt(ifaces, p);
    }
    ConcatNoUpper(lines);
  }

  lemma {:induction false} MacLineAt(ifaces: seq<Interface>, k: nat)
    requires k < |ifaces|
    ensures MacLines(ifaces)[k] == MacLine(ifaces[k])
  {
    var n := |ifaces| - 1;
    if k < n {
      MacLineAt(ifaces[..n], k);
    }
  }

  /** Hosts without a hostname get different directories. */
  lemma DefaultDirNamesDistinct(i: nat, hi: Host, j: nat, hj: Host)
    requires i != j && hi.hostname == "" && hj.hostname == ""
    ensures DirName(i, hi) != DirName(j, hj)
  {
    DecimalInjective(i, j);
    var a, b := DecimalString(i), DecimalString(j);
    assert ("host-" + a)[5..] == a;
    assert ("host-" + b)[5..] == b;
  }

  // ---------------------------------------------------------------------------
  // The loop over the hosts.

  /** The loop fails exactly when the serialiser fails for some host, and then with
      the error of the first such host. */
  lemma {:induction false} FilesOfOkIff(hosts: seq<Host>, marshal: HintsMarshaller)
    ensures FilesOf(hosts, marshal).Ok?
        <==> forall i :: 0 <= i < |hosts| ==> marshal(hosts[i].rootDeviceHints).Ok?
    ensures FilesOf(hosts, marshal).Err? ==>
              exists i :: 0 <= i < |hosts| && marshal(hosts[i].rootDeviceHints) == Err(FilesOf(hosts, marshal).error)
                          && forall k :: 0 <= k < i ==> marshal(hosts[k].rootDeviceHints).Ok?
  {
    if hosts != [] {
      var n := |hosts| - 1;
      var init := hosts[..n];
      FilesOfOkIff(init, marshal);
      assert forall k :: 0 <= k < n ==> init[k] == hosts[k];
      if FilesOf(init, marshal).Err? {
        var i :| 0 <= i < |init| && marshal(init[i].rootDeviceHints) == Err(FilesOf(init, marshal).error)
                 && forall k :: 0 <= k < i ==> marshal(init[k].rootDeviceHints).Ok?;
        assert marshal(hosts[i].rootDeviceHints) == Err(FilesOf(hosts, marshal).error);
      }
    }
  }

  /** Once the loop has failed on a prefix, it has failed with the same error on the
      whole list: later hosts are never reached. */
  lemma {:induction false} FilesOfErrPersists(hosts: seq<Host>, marshal: HintsMarshaller, m: nat)
    requires m <= |hosts| && FilesOf(hosts[..m], marshal).Err?
    ensures FilesOf(hosts, marshal) == FilesOf(hosts[..m], marshal)
    decreases |hosts| - m
  {
    if m < |hosts| {
      var next := hosts[..m + 1];
      PrefixStep(hosts, m);
      assert FilesOf(next, marshal) == FilesOf(hosts[..m], marshal);
      PrefixOfPrefix(hosts, m + 1, m);
      FilesOfErrPersists(hosts, marshal, m + 1);
    } else {
      PrefixAll(hosts);
    }
  }

  /** The serialised hints of a host; only consulted when serialisation succeeded. */
  function Rendered(h: Host, marshal: HintsMarshaller): string
  {
    match marshal(h.rootDeviceHints)
    case Ok(rdh) => rdh
    case Err(_) => ""
  }

  /** Every key of the result belongs to some host's own files. */
  lemma {:induction false} FilesOfKeys(hosts: seq<Host>, marshal: HintsMarshaller, key: string)
    requires FilesOf(hosts, marshal).Ok?
    ensures key in FilesOf(hosts, marshal).value
      <==> exists i :: 0 <= i < |hosts| && key in HostEntries(i, hosts[i], Rendered(hosts[i], marshal))
  {
    FilesOfOkIff(hosts, marshal);
    if hosts != [] {
      var n := |hosts| - 1;
      var init := hosts[..n];
      FilesOfOkIff(init, marshal);
      FilesOfKeys(init, marshal, key);
      AddHostOverrides(FilesOf(init, marshal).value, n, hosts[n], Rendered(hosts[n], marshal));
      assert forall k :: 0 <= k < n ==> init[k] == hosts[k];
    }
  }

  /** The last writer wins: a key written by host i and by no later host holds host
      i's content. In particular a later host with the same directory overwrites
      the earlier host's files of the same name. */
  lemma {:induction false} FilesOfLastWriter(hosts: seq<Host>, marshal: HintsMarshaller, i: nat, key: string)
    requires FilesOf(hosts, marshal).Ok?
    requires i < |hosts|
    ensures key in HostEntries(i, hosts[i], Rendered(hosts[i], marshal))
            && (forall j :: i < j < |hosts| ==> key !in HostEntries(j, hosts[j], Rendered(hosts[j], marshal)))
            ==> key in FilesOf(hosts, marshal).value
                && FilesOf(hosts, marshal).value[key] == HostEntries(i, hosts[i], Rendered(hosts[i], marshal))[key]
  {
    var n := |hosts| - 1;
    var init := hosts[..n];
    var prev := FilesOf(init, marshal);
    var rdh := Rendered(hosts[n], marshal);
    assert prev.Ok? && FilesOf(hosts, marshal).value == AddHost(prev.value, n, hosts[n], rdh);
    AddHostOverrides(prev.value, n, hosts[n], rdh);
    if i < n {
      FilesOfLastWriter(init, marshal, i, key);
      forall j | i < j < n
        ensures init[j] == hosts[j]
      {
        PrefixOfPrefix(hosts, n, j);
      }
      PrefixOfPrefix(hosts, n, i);
    }
  }
}
