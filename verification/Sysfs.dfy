/** The sysfs files the toolkit uses, as one value, and the reads on them. */
module Sysfs {
  import opened Wrappers
  import opened Text

  /** A file below the sysfs root. Directory names are single path components. */
  datatype Path =
    | ProfileAttr(dev: string, leaf: string)   // class/platform-profile/<dev>/<leaf>
    | FirmwareAttr(dir: string, leaf: string)  // class/firmware-attributes/../attributes/<dir>/<leaf>
    | ChargeTypes                              // class/power_supply/BAT0/charge_types
    | Elsewhere(rel: string)

  datatype HwError = NotSupported | PermissionDenied | Busy | Io | Parse

  /** What sysfs holds and how the kernel behaves behind it.

      `profileDir` and `attrDir` are the entries of the two class directories in the order
      the kernel happens to return them; `gate` says whether limits are refused outside
      the Custom profile; `refuse` holds the writes the kernel turns down for reasons of
      its own, with the error each one gets. */
  datatype Machine = Machine(
    files: map<Path, string>,
    profileDir: seq<string>,
    attrDir: seq<string>,
    gate: bool,
    refuse: map<(Path, string), HwError>)

  function Read(m: Machine, p: Path): Result<string, HwError> {
    if p in m.files then Ok(Trim(m.files[p])) else Err(NotSupported)
  }

  function ReadOpt(m: Machine, p: Path): Option<string> {
    match Read(m, p) case Ok(s) => Some(s) case Err(_) => None
  }

  function ReadU32(m: Machine, p: Path): Result<u32, HwError> {
    match Read(m, p)
    case Err(e) => Err(e)
    case Ok(s) => match ParseU32(s) case Some(v) => Ok(v) case None => Err(Parse)
  }

  function ReadU32Or(m: Machine, p: Path, default: u32): u32 {
    match ReadU32(m, p) case Ok(v) => v case Err(_) => default
  }

  /** Only the files in `ps` differ, and none appears or disappears. */
  ghost predicate OnlyChanged(m: Machine, m': Machine, ps: set<Path>) {
    && m' == m.(files := m'.files)
    && m'.files.Keys == m.files.Keys
    && forall p | p in m.files && p !in ps :: m'.files[p] == m.files[p]
  }
}
