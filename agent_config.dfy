/** The AgentConfig asset of agent_config.go: the file it was loaded from and the
    decoded configuration, filled in by Load, checked by finish, and turned into
    per-host files by HostConfigFiles. */
module AgentConfigAsset {
  import opened Wrappers
  import opened Field
  import opened AgentTypes
  import opened Text
  import opened Seqs
  import opened ValidationRules
  import opened Validator
  import opened HostFiles
  import opened ConfigValidity

  /** The name the asset is fetched by. */
  const AgentConfigFilename: string := "agent-config.yaml"

  /** An asset file: its name and its bytes, as text. */
  datatype File = File(filename: string, data: string)

  /** What the file fetcher answers: the file, "does not exist", or another failure. */
  datatype FetchResult = Fetched(file: File) | NotExist | FetchFailure(message: string)

  /** Why Load fails. A failed validation carries the whole error list. */
  datatype LoadError =
    | FetchFailed(filename: string, message: string)
    | UnmarshalFailed(filename: string, message: string)
    | ConversionFailed(message: string)
    | InvalidConfig(errors: seq<FieldError>)

  /** finish: no error when the validator reports nothing, otherwise one error
      carrying the validator's list. */
  function FinishOutcome(c: Config, v: Validators): Option<LoadError>
  {
    var errs := AgentErrors(c, v);
    if errs == [] then None else Some(InvalidConfig(errs))
  }

  class AgentConfig {
    var file: Option<File>
    var config: Option<Config>

    constructor ()
      ensures file.None? && config.None?
    {
      file := None;
      config := None;
    }

    /** finish: runs the validator over the stored configuration. */
    method Finish(v: Validators) returns (err: Option<LoadError>)
      requires config.Some?
      ensures err == FinishOutcome(config.value, v)
      ensures err.None? <==> AgentErrors(config.value, v) == []
      ensures err.Some? ==> err.value.InvalidConfig? && err.value.errors == AgentErrors(config.value, v)
      ensures err.None? <==> ConfigValid(config.value, v)
    {
      NoErrorsIffValid(config.value, v);
      var errs := ValidateAgent(config.value, v);
      if errs != [] {
        return Some(InvalidConfig(errs));
      }
      return None;
    }

    /** Load: fetch agent-config.yaml, decode it strictly, up-convert deprecated
        fields, store the file and the configuration, then run finish. A missing
        file is not an error; any failure before the store leaves the asset as it
        was; a failed validation leaves the file and configuration stored. */
    method Load(fetch: string -> FetchResult, decode: string -> Result<Config, string>,
                convert: Config -> Result<Config, string>, v: Validators)
      returns (found: bool, err: Option<LoadError>)
      modifies this
      ensures found ==> err.None?
      ensures fetch(AgentConfigFilename).NotExist? ==>
                !found && err.None? && file == old(file) && config == old(config)
      ensures fetch(AgentConfigFilename).FetchFailure? ==>
                !found && err == Some(FetchFailed(AgentConfigFilename, fetch(AgentConfigFilename).message))
                && file == old(file) && config == old(config)
      ensures fetch(AgentConfigFilename).Fetched? ==>
                var f := fetch(AgentConfigFilename).file;
                match decode(f.data)
                case Err(msg) =>
                  !found && err == Some(UnmarshalFailed(AgentConfigFilename, msg))
                  && file == old(file) && config == old(config)
                case Ok(decoded) =>
                  match convert(decoded)
                  case Err(msg) =>
                    !found && err == Some(ConversionFailed(msg)) && file == old(file) && config == old(config)
                  case Ok(c) =>
                    file == Some(f) && config == Some(c)
                    && err == FinishOutcome(c, v) && (found <==> AgentErrors(c, v) == [])
    {
      var fetched := fetch(AgentConfigFilename);
      match fetched {
        case NotExist =>
          return false, None;
        case FetchFailure(message) =>
          return false, Some(FetchFailed(AgentConfigFilename, message));
        case Fetched(f) =>
          var decoded := decode(f.data);
          if decoded.Err? {
            return false, Some(UnmarshalFailed(AgentConfigFilename, decoded.error));
          }
          var converted := convert(decoded.value);
          if converted.Err? {
            return false, Some(ConversionFailed(converted.error));
          }
          file, config := Some(f), Some(converted.value);
          err := Finish(v);
          if err.Some? {
            return false, err;
          }
          return true, None;
      }
    }

    /** HostConfigFiles: for each host, its directory name, then mac_addresses built
        line by line, then the serialised hints, then the role; the first
        serialiser error discards the map. Without a configuration, no file. */
    method HostConfigFiles(marshal: HintsMarshaller) returns (r: Result<map<string, string>, string>)
      ensures r == DeriveHostFiles(config, marshal)
    {
      if config.None? {
        return Ok(map[]);
      }
      var hosts := config.value.hosts;
      var files: map<string, string> := map[];
      for i := 0 to |hosts|
        invariant FilesOf(hosts[..i], marshal) == Ok(files)
      {
        PrefixStep(hosts, i);
        var host := hosts[i];
        var name := "host-" + DecimalString(i);
        if host.hostname != "" {
          name := host.hostname;
        }
        var macs: seq<string> := [];
        for j := 0 to |host.interfaces|
          invariant macs == MacLines(host.interfaces[..j])
        {
          PrefixStep(host.interfaces, j);
          macs := macs + [Lower(host.interfaces[j].macAddress) + "\n"];
        }
        PrefixAll(host.interfaces);
        if |macs| > 0 {
          files := files[FilePath(name, MacAddressesFile) := Concat(macs)];
        }
        var rdh := marshal(host.rootDeviceHints);
        if rdh.Err? {
          FilesOfErrPersists(hosts, marshal, i + 1);
          return Err(rdh.error);
        }
        if |rdh.value| > 0 && rdh.value != EmptyHintsYaml {
          files := files[FilePath(name, RootDeviceHintsFile) := rdh.value];
        }
        if |host.role| > 0 {
          files := files[FilePath(name, RoleFile) := host.role];
        }
      }
      PrefixAll(hosts);
      return Ok(files);
    }
  }
}
