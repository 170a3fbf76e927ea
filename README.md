# Agent configuration: validator and host-file deriver

This project models the `AgentConfig` asset of the OpenShift installer's agent-based
flow (`pkg/asset/agent/agentconfig/agent_config.go`) and proves properties of the model.
The asset reads `agent-config.yaml`. It then does two things:

- **Validator.** `validateAgent` and its helpers check the decoded configuration.
  They collect one ordered list of field errors. Each error is `Required`, `Invalid` or
  `Forbidden` and is tagged with a field path.
  - `rendezvousIP`: an IP check.
  - Per host:
    - interfaces and MAC addresses, with a duplicate check shared across hosts;
    - the root-device-hint WWN restrictions;
    - the role.
  - The additional NTP sources.
  - The rule that only a master host may carry the rendezvous IP.
  - `finish` fails exactly when the list is non-empty.
- **Deriver.** `HostConfigFiles` turns the host list into a map from
  `<host directory>/<file>` to file content:
  - `mac_addresses`;
  - `root-device-hints.yaml`;
  - `role`.

## Layout

| file | module | contents |
|---|---|---|
| `wrappers.dfy` | `Wrappers` | `Option`, `Result` |
| `seqs.dfy` | `Seqs` | small generic facts about prefixes and concatenation |
| `field.dfy` | `Field` | field paths, error kinds and messages, `FieldError`, and `ErrorsAt`, the errors tagged with one path |
| `agent_types.dfy` | `AgentTypes` | `Interface`, `RootDeviceHints`, `Host`, `Config`, and `Validators`: the IP, MAC and domain-name checkers, passed in as parameters |
| `text.dfy` | `Text` | the Go string operations used: `strings.Contains`, ASCII `strings.ToLower`, `strings.Join(_, "")`, and `%d` formatting |
| `validation_rules.dfy` | `ValidationRules` | each validation rule as a pure function; `AgentErrors` is the whole validator |
| `validator.dfy` | `Validator` | the validator's loops as methods, with the shared MAC set as a `MacRegistry` object updated in place, each proved to return its rule function |
| `mac_properties.dfy` | `MacProperties` | what the MAC set holds at each step of the scan |
| `validation_properties.dfy` | `ValidationProperties` | for every path the validator reports at, the exact list of errors reported there |
| `config_validity.dfy` | `ConfigValidity` | the rules as one predicate `ConfigValid`, and proof that the error list is empty exactly when it holds |
| `host_files.dfy` | `HostFiles` | the specification of `HostConfigFiles`'s map and its properties |
| `agent_config.dfy` | `AgentConfigAsset` | the `AgentConfig` class: `Load`, `finish` (`Finish`) and `HostConfigFiles` |

**How the validator's lists are stated.** Each list is a function defined over the prefix of
the hosts, interfaces or sources seen so far. Each method that runs a loop carries a loop
invariant equating its list with that function on the current prefix.

**How the per-path lemmas are stated.** The lemmas in `ValidationProperties` take the whole
validator's list and filter it down to one path with `ErrorsAt`. They then state exactly
what remains at that path, for example `Hosts[i].Interfaces[j].macAddress`.

**Order between paths.** Ordering is stated in two places:
- `ValidateAgent` states the concatenation order of the four groups.
- `RootDeviceHintsRule` states the order of the two WWN hint errors.

### Details of the code the model keeps
- Duplicate MACs are compared as exact strings (lines 237-240), so `AA:..` and `aa:..`
  are not duplicates.
- `mac_addresses` puts `"\n"` after every lower-cased address and joins with `""`
  (lines 325, 329), so the file ends with a newline.

## Model

All source paths below are in `pkg/asset/agent/agentconfig/agent_config.go`.

| member | source | states |
|---|---|---|
| ValidationRules.RendezvousIPRule | pkg/asset/agent/agentconfig/agent_config.go:175-190 | `ValidateRendezvousIP` (the rule): an empty rendezvous IP yields no error. Otherwise there is an error iff the IP checker rejects the address, and then it is exactly one `Invalid` at `rendezvousIP` carrying the checker's message. |
| ValidationRules.RootDeviceHintsRule | pkg/asset/agent/agentconfig/agent_config.go:246-259 | `ValidateHostRootDeviceHints` (the rule): one `Forbidden` error per non-empty WWN hint, so zero to two. `WWNWithExtension`'s error is present iff that hint is set, and likewise `WWNVendorExtension`'s. When both are present, `WWNWithExtension` comes first. |
| ValidationRules.RoleRule | pkg/asset/agent/agentconfig/agent_config.go:261-269 | `ValidateRoles` (the rule): at most one error. There is none iff the role is empty, `master` or `worker` (case-sensitive). The error is `Forbidden` at `Hosts[i].Host`. |
| ValidationRules.MacsOf | pkg/asset/agent/agentconfig/agent_config.go:228-240 | The addresses the interface scan adds to the seen set never include the empty address. |
| ValidationRules.AllMacs | pkg/asset/agent/agentconfig/agent_config.go:195-201 | The seen set after scanning any hosts never contains the empty address. |
| MacProperties.MacsOfIff | pkg/asset/agent/agentconfig/agent_config.go:224-241 | An address is added by one host's scan iff it is non-empty and declared by one of that host's interfaces. |
| MacProperties.AllMacsIff | pkg/asset/agent/agentconfig/agent_config.go:192-214 | The seen set shared across hosts holds an address iff it is non-empty and declared by some scanned host. |
| MacProperties.SeenBeforeIff | pkg/asset/agent/agentconfig/agent_config.go:237-240 | When interface j of host i is checked, a non-empty address is in the seen set iff the identical string occurs at an earlier interface, in host-then-interface order. |
| MacProperties.FirstOccurrenceNotSeen | pkg/asset/agent/agentconfig/agent_config.go:237-240 | The first occurrence of an address is never in the seen set when it is checked. |
| Validator.ValidateHostInterfaces | pkg/asset/agent/agentconfig/agent_config.go:216-244 | The loop returns the interface-rule errors computed against the incoming seen set. The seen set grows by exactly the host's non-empty addresses, and by nothing else. |
| Validator.ValidateHosts | pkg/asset/agent/agentconfig/agent_config.go:192-214 | The host loop, with one seen set shared across all hosts, returns the host-rule errors of each host in order. Each host is checked against the addresses of the hosts before it. |
| Validator.ValidateAdditionalNTPSources | pkg/asset/agent/agentconfig/agent_config.go:271-285 | The loop returns the NTP-source errors, one entry per source, in source order. |
| Validator.ValidateRendezvousIPNotWorker | pkg/asset/agent/agentconfig/agent_config.go:287-303 | The loop returns the placement errors of the hosts, in host order. |
| Validator.NoPlacementWithoutRendezvousIP | pkg/asset/agent/agentconfig/agent_config.go:290-300 | With an empty rendezvous IP, no host gets a placement error. |
| Validator.ValidateAgent | pkg/asset/agent/agentconfig/agent_config.go:153-173 | The method returns `AgentErrors`, the whole validator as a function: the rendezvous-IP errors, then the host errors, then the NTP errors, then the placement errors. No group stops a later one. |
| ValidationProperties.MacScanAt | pkg/asset/agent/agentconfig/agent_config.go:224-241 | The scan's errors at interface j's path are exactly that interface's errors. They are computed against the incoming set plus the addresses of interfaces 0..j-1. |
| ValidationProperties.HostErrorsUnder | pkg/asset/agent/agentconfig/agent_config.go:198-210 | Every error of host i's checks is tagged below `Hosts[i]`. |
| ValidationProperties.HostsErrorsAt | pkg/asset/agent/agentconfig/agent_config.go:192-214 | Below `Hosts[i]`, the host loop reports exactly host i's own errors, checked against the addresses of hosts 0..i-1. |
| ValidationProperties.NTPSourcesAt | pkg/asset/agent/agentconfig/agent_config.go:274-281 | At `AdditionalNTPSources[k]`, the NTP loop reports exactly source k's errors. |
| ValidationProperties.PlacementAt | pkg/asset/agent/agentconfig/agent_config.go:290-299 | At `Hosts[i].Host`, the placement loop reports exactly host i's placement errors. |
| ValidationProperties.RendezvousIPErrorsAt | pkg/asset/agent/agentconfig/agent_config.go:175-190 | At `rendezvousIP`, the whole validator reports exactly one `Invalid` error when a non-empty address is rejected, and nothing otherwise. |
| ValidationProperties.InterfacesRequiredAt | pkg/asset/agent/agentconfig/agent_config.go:219-222 | At `Hosts[i].Interfaces`, the whole validator reports exactly one `Required` error when host i has no interface, and nothing otherwise. |
| ValidationProperties.MacAddressErrorsAt | pkg/asset/agent/agentconfig/agent_config.go:224-241 | At `Hosts[i].Interfaces[j].macAddress`, an empty address gets exactly one `Required` error and no duplicate check. A non-empty one gets the checker's `Invalid` error if it is rejected. It is then followed by one duplicate `Invalid` error iff the identical string occurs earlier in host-then-interface order, so it can carry both. |
| ValidationProperties.WWNExtensionErrorsAt | pkg/asset/agent/agentconfig/agent_config.go:249-252 | At `Hosts[i].RootDeviceHints.WWNWithExtension`, exactly one `Forbidden` error iff the hint is set. |
| ValidationProperties.WWNVendorExtensionErrorsAt | pkg/asset/agent/agentconfig/agent_config.go:254-256 | At `Hosts[i].RootDeviceHints.WWNVendorExtension`, exactly one `Forbidden` error iff the hint is set. |
| ValidationProperties.HostFieldErrorsAt | pkg/asset/agent/agentconfig/agent_config.go:264-297 | At `Hosts[i].Host`, the whole validator reports the role error iff the role is outside the allowed ones. That is followed by the placement error iff all of these hold: the rendezvous IP is non-empty, the raw network config contains it, and the role is non-empty and not `master`. A host with an empty role is never flagged. |
| ValidationProperties.NTPSourceErrorsAt | pkg/asset/agent/agentconfig/agent_config.go:271-285 | At `AdditionalNTPSources[k]`, the whole validator reports exactly one `Invalid` error iff both the domain-name check and the IP check reject the source, and nothing otherwise. |
| ConfigValidity.AgentErrorsCheckPaths | pkg/asset/agent/agentconfig/agent_config.go:153-173 | Every error the validator reports is tagged with one of the check paths of the configuration. |
| ConfigValidity.ValidWhenNoErrors | pkg/asset/agent/agentconfig/agent_config.go:153-173 | A configuration the validator reports nothing about satisfies every rule. |
| ConfigValidity.NoErrorsWhenValid | pkg/asset/agent/agentconfig/agent_config.go:153-173 | A configuration satisfying every rule gets an empty error list. |
| ConfigValidity.NoErrorsIffValid | pkg/asset/agent/agentconfig/agent_config.go:145-173 | The error list is empty iff every rule holds. |
| AgentConfigAsset.AgentConfig.Finish | pkg/asset/agent/agentconfig/agent_config.go:145-151 | `finish` returns no error iff the validator's list is empty, iff every rule holds. Otherwise it returns one error carrying the whole list. |
| AgentConfigAsset.AgentConfig.Load | pkg/asset/agent/agentconfig/agent_config.go:117-143 | A missing file gives not-found with no error. A fetch, decode or conversion failure gives the matching error and leaves the asset unchanged. Otherwise the file and the converted configuration are stored, and the result is `finish`'s. |
| AgentConfigAsset.AgentConfig.HostConfigFiles | pkg/asset/agent/agentconfig/agent_config.go:311-345 | With the outer loop over hosts and the inner loop over interfaces, the method returns `HostFiles.DeriveHostFiles`, which is `HostFiles.FilesOf` over the hosts. Without a configuration it returns no file and no error. |
| HostFiles.MacLines | pkg/asset/agent/agentconfig/agent_config.go:323-326 | One `mac_addresses` line per interface. |
| HostFiles.MacLineAt | pkg/asset/agent/agentconfig/agent_config.go:324-326 | Line k is interface k's address, lower-cased, followed by a newline. |
| HostFiles.MacAddressesContent | pkg/asset/agent/agentconfig/agent_config.go:323-330 | In `mac_addresses`, interface k's lower-cased address and its newline start right after the lines of interfaces 0..k-1. The file holds no upper-case letter. |
| HostFiles.FilePathsDistinct | pkg/asset/agent/agentconfig/agent_config.go:329-341 | The three file names of one directory are three distinct keys. |
| HostFiles.DefaultDirNamesDistinct | pkg/asset/agent/agentconfig/agent_config.go:318-321 | Two different hosts without a hostname get different `host-<i>` directories. |
| HostFiles.HostEntriesContents | pkg/asset/agent/agentconfig/agent_config.go:317-342 | A host writes only under its own directory: the hostname, or `host-<i>` when empty. `mac_addresses` is present iff the host has an interface, and holds its lines joined. `root-device-hints.yaml` is present iff the serialised hints are non-empty and not `{}\n`, and holds them. `role` is present iff the role is non-empty, and holds exactly the role. There is no other key. |
| HostFiles.AddHostOverrides | pkg/asset/agent/agentconfig/agent_config.go:328-342 | Writing a host's files into the map overrides the map with that host's own entries and leaves every other key as it was. |
| HostFiles.FilesOfOkIff | pkg/asset/agent/agentconfig/agent_config.go:332-335 | `FilesOf` (the deriver's loop as a function) succeeds iff the serialiser succeeds on every host's hints. On failure it returns the first failing host's error, and the map is discarded. |
| HostFiles.FilesOfErrPersists | pkg/asset/agent/agentconfig/agent_config.go:332-335 | Once a host's hints fail to serialise, the later hosts do not change the result. |
| HostFiles.FilesOfKeys | pkg/asset/agent/agentconfig/agent_config.go:316-344 | A key is in the map `FilesOf` derives iff some host writes it. |
| HostFiles.FilesOfLastWriter | pkg/asset/agent/agentconfig/agent_config.go:316-344 | In the map `FilesOf` derives, a key holds the content written by the last host that writes it. A later host with the same directory name overwrites an earlier host's file. |
| Text.Lower | pkg/asset/agent/agentconfig/agent_config.go:325 | ASCII lower-casing keeps the length, maps every character through the lower-case table, and leaves no upper-case letter. |
| Text.ConcatLength | pkg/asset/agent/agentconfig/agent_config.go:329 | The joined text is as long as its parts together. |
| Text.ConcatPieces | pkg/asset/agent/agentconfig/agent_config.go:329 | Part k of a join starts right after the parts before it. |
| Text.ConcatNoUpper | pkg/asset/agent/agentconfig/agent_config.go:325-329 | Joining parts without upper-case letters gives a text without upper-case letters. |
| Text.DecimalString | pkg/asset/agent/agentconfig/agent_config.go:318 | `%d` of a non-negative index is a non-empty string of decimal digits. |
| Text.DecimalRoundTrip | pkg/asset/agent/agentconfig/agent_config.go:318 | Reading back the decimal digits of an index gives the index. |
| Text.DecimalInjective | pkg/asset/agent/agentconfig/agent_config.go:318 | Distinct indices give distinct `host-<i>` suffixes. |

## Left out

- `Name`, `Dependencies`, `Generate`, `PersistToFile` and `Files` (lines 32-114), and the `Template` field: a fixed template string, a file write, and accessors with no logic.
- `validate.IP`, `validate.MAC` and `validate.DomainName` are not part of this model. They are the `Validators` parameter: each returns no message (accept) or the message of the error it would return (reject).
- `yaml.Marshal` of the root device hints is not part of this model. It is the `HintsMarshaller` parameter, which returns the YAML text or an error message. The hint fields other than the two WWN extensions are an opaque map.
- `FetchByName`, `yaml.UnmarshalStrict` and `conversion.ConvertAgentConfig` in `Load` are not part of this model. They are function parameters that may fail. `os.IsNotExist` is the `NotExist` answer of the fetcher.
- AgentConfigAsset.AgentConfig.Load: the error texts added by `errors.Wrap` are not modelled. Each failure is a `LoadError` variant carrying the file name and the underlying message.
- AgentConfigAsset.AgentConfig.Finish: `ToAggregate` and its merging of identical messages belong to a library that is not part of this model. The model keeps the whole list. Merging never turns a non-empty list into an empty one, so it cannot change whether `finish` fails.
- HostFiles.FilePath: `filepath.Join` cleans paths, dropping `..`, `.` and repeated separators. The model joins with `"/"` and does no cleaning.
- Text.Lower: `strings.ToLower` is modelled for ASCII letters only; Unicode case mapping is left out.
- File contents and `host.NetworkConfig.Raw` are `[]byte` in the source and strings here. So `strings.Contains` at line 293, which compares bytes, is modelled by `Text.Contains` comparing characters.
- A nil `*AgentConfig` receiver and a nil `Config` in `HostConfigFiles` are both the `None` configuration. Go returns a nil map, modelled as the empty map.
- Field paths are sequences of segments (`Child(name)`, `Index(i)`), not the rendered strings `Hosts[0].Interfaces`.
- Error messages are a `Detail` enumeration whose `Text()` gives the source's messages. The placement message includes the hostname.
- `unmarshalJSON` (lines 347-350) is unused and wraps a foreign YAML conversion.
