/** The configuration document the validator and the deriver work on
    (`agent.Config` after decoding and up-conversion), and the external
    checkers they consult. */
module AgentTypes {
  import opened Wrappers

  datatype Interface = Interface(name: string, macAddress: string)

  /** Root device hints. Only the two WWN extension fields are inspected by the
      validator; the remaining hint fields are kept by their YAML key and are
      only ever serialised. */
  datatype RootDeviceHints = RootDeviceHints(
    wwnWithExtension: string,
    wwnVendorExtension: string,
    otherHints: map<string, string>)

  datatype Host = Host(
    hostname: string,
    role: string,
    rootDeviceHints: RootDeviceHints,
    interfaces: seq<Interface>,
    networkConfigRaw: string)

  datatype Config = Config(
    rendezvousIP: string,
    additionalNTPSources: seq<string>,
    hosts: seq<Host>)

  /** The syntax checkers of the installer's `validate` package, whose bodies are
      not part of this model: each answers None when its input is accepted and
      Some(message) with the error text when it is rejected. `domainName` is the
      check called with trailing dots accepted. */
  datatype Validators = Validators(
    ip: string -> Option<string>,
    mac: string -> Option<string>,
    domainName: string -> Option<string>)
}
