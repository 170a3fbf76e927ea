/** Field paths and field errors, the shapes the validator reports in
    (the `field.Path` and `field.Error` values of Kubernetes' apimachinery,
    restricted to the field names and error details this validator uses). */
module Field {

  /** The child names that occur in the validator's paths; Text() is the name as
      the source spells it. */
  datatype FieldName =
    | RendezvousIPField
    | HostsField
    | InterfacesField
    | MacAddressField
    | RootDeviceHintsField
    | WWNWithExtensionField
    | WWNVendorExtensionField
    | HostField
    | AdditionalNTPSourcesField
  {
    function Text(): string
    {
      match this
      case RendezvousIPField => "rendezvousIP"
      case HostsField => "Hosts"
      case InterfacesField => "Interfaces"
      case MacAddressField => "macAddress"
      case RootDeviceHintsField => "RootDeviceHints"
      case WWNWithExtensionField => "WWNWithExtension"
      case WWNVendorExtensionField => "WWNVendorExtension"
      case HostField => "Host"
      case AdditionalNTPSourcesField => "AdditionalNTPSources"
    }
  }

  /** One step of a field path: a named child (`.Interfaces`) or a list index (`[3]`). */
  datatype Segment = Child(name: FieldName) | Index(i: nat)

  type Path = seq<Segment>

  datatype ErrorType = TypeRequired | TypeInvalid | TypeForbidden

  /** The detail of each error the validator reports; Text() is its wording. */
  datatype Detail =
    | InterfacesRequiredMsg
    | MacRequiredMsg
    | DuplicateMacMsg
    | WWNExtensionMsg
    | WWNVendorExtensionMsg
    | RoleMsg
    | NTPSourceMsg
    | PlacementMsg(hostname: string)
    | CheckerMsg(message: string)  // the error text of an external syntax checker
  {
    function Text(): string
    {
      match this
      case InterfacesRequiredMsg => "at least one interface must be defined for each node"
      case MacRequiredMsg => "each interface must have a MAC address defined"
      case DuplicateMacMsg => "duplicate MAC address found"
      case WWNExtensionMsg => "WWN extensions are not supported in root device hints"
      case WWNVendorExtensionMsg => "WWN vendor extensions are not supported in root device hints"
      case RoleMsg => "host role has incorrect value. Role must either be 'master' or 'worker'"
      case NTPSourceMsg => "NTP source is not a valid domain name nor a valid IP"
      case PlacementMsg(hostname) =>
        "Host " + hostname + " is not of role 'master' and has the rendevousIP assigned to it. The rendevousIP must be assigned to a host of role 'master'"
      case CheckerMsg(message) => message
    }
  }

  /** A single violation: its type, the field it is tagged with, the offending
      value (empty for Required and Forbidden) and its detail. */
  datatype FieldError = FieldError(kind: ErrorType, path: Path, badValue: string, detail: Detail)

  function Required(p: Path, detail: Detail): FieldError
  {
    FieldError(TypeRequired, p, "", detail)
  }

  function Invalid(p: Path, value: string, detail: Detail): FieldError
  {
    FieldError(TypeInvalid, p, value, detail)
  }

  function Forbidden(p: Path, detail: Detail): FieldError
  {
    FieldError(TypeForbidden, p, "", detail)
  }

  /** The errors of `errs` tagged with exactly the path `p`, in their original order. */
  function ErrorsAt(errs: seq<FieldError>, p: Path): (r: seq<FieldError>)
    ensures |r| <= |errs|
  {
    if errs == [] then []
    else (if errs[0].path == p then [errs[0]] else []) + ErrorsAt(errs[1..], p)
  }

  /** An error is reported at its own path. */
  lemma FirstAtOwnPath(errs: seq<FieldError>)
    requires errs != []
    ensures ErrorsAt(errs, errs[0].path) != [] && ErrorsAt(errs, errs[0].path)[0] == errs[0]
  {
  }

  /** The errors tagged with `p` are exactly the members of `errs` tagged with `p`. */
  lemma {:induction false} ErrorsAtMembers(errs: seq<FieldError>, p: Path)
    ensures forall e :: e in ErrorsAt(errs, p) <==> e in errs && e.path == p
  {
    if errs != [] {
      ErrorsAtMembers(errs[1..], p);
      assert errs == [errs[0]] + errs[1..];
    }
  }

  lemma {:induction false} ErrorsAtNone(errs: seq<FieldError>, p: Path)
    requires forall e :: e in errs ==> e.path != p
    ensures ErrorsAt(errs, p) == []
  {
    if errs != [] {
      assert errs[0] in errs;
      assert forall e :: e in errs[1..] ==> e in errs;
      ErrorsAtNone(errs[1..], p);
    }
  }

  lemma {:induction false} ErrorsAtAll(errs: seq<FieldError>, p: Path)
    requires forall e :: e in errs ==> e.path == p
    ensures ErrorsAt(errs, p) == errs
  {
    if errs != [] {
      assert errs[0] in errs;
      assert forall e :: e in errs[1..] ==> e in errs;
      ErrorsAtAll(errs[1..], p);
      assert errs == [errs[0]] + errs[1..];
    }
  }

  lemma {:induction false} ErrorsAtAppend(a: seq<FieldError>, b: seq<FieldError>, p: Path)
    ensures ErrorsAt(a + b, p) == ErrorsAt(a, p) + ErrorsAt(b, p)
  {
    if a != [] {
      assert (a + b)[0] == a[0];
      assert (a + b)[1..] == a[1..] + b;
      ErrorsAtAppend(a[1..], b, p);
    } else {
      assert a + b == b;
    }
  }

  /** Every error of `errs` is tagged with a path that extends `prefix`. */
  ghost predicate AllUnder(errs: seq<FieldError>, prefix: Path)
  {
    forall e :: e in errs ==> prefix <= e.path
  }

  lemma AllUnderAppend(a: seq<FieldError>, b: seq<FieldError>, prefix: Path)
    requires AllUnder(a, prefix) && AllUnder(b, prefix)
    ensures AllUnder(a + b, prefix)
  {
  }

  /** Of two consecutive groups of errors, one known to be empty drops out. */
  lemma TwoGroups(all: seq<FieldError>, a: seq<FieldError>, b: seq<FieldError>)
    requires all == a + b
    ensures a == [] ==> all == b
    ensures b == [] ==> all == a
  {
  }

  /** Of four consecutive groups of errors, the ones known to be empty drop out. */
  lemma FourGroups(all: seq<FieldError>, a: seq<FieldError>, b: seq<FieldError>,
                   d: seq<FieldError>, e: seq<FieldError>)
    requires all == a + b + d + e
    ensures b == [] && d == [] && e == [] ==> all == a
    ensures a == [] && d == [] && e == [] ==> all == b
    ensures a == [] && b == [] && e == [] ==> all == d
    ensures a == [] && b == [] && d == [] ==> all == e
    ensures a == [] && d == [] ==> all == b + e
  {
  }

  lemma AllUnderElsewhere(errs: seq<FieldError>, prefix: Path, p: Path)
    requires AllUnder(errs, prefix)
    requires !(prefix <= p)
    ensures ErrorsAt(errs, p) == []
  {
    ErrorsAtNone(errs, p);
  }
}
