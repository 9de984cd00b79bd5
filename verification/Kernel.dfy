/** What the kernel does with a write to a sysfs file. These are the assumptions about the
    environment; everything else in the project is the toolkit's own code. */
module Kernel {
  import opened Wrappers
  import opened Sysfs
  import opened Discovery
  import opened Battery

  type Outcome = Result<(), HwError>

  /** Why a write is turned down, if it is: the file is absent; a limit is written outside
      the Custom profile while the gate is enforced; the kernel refuses this value; or
      `charge_types` does not list the type. */
  function Refusal(m: Machine, p: Path, v: string): Option<HwError> {
    if p !in m.files then Some(NotSupported)
    else if p.FirmwareAttr? && p.leaf == "current_value" && m.gate && !CustomSelected(m) then Some(Busy)
    else if (p, v) in m.refuse then Some(m.refuse[(p, v)])
    else if p == ChargeTypes && !Selectable(m.files[p], v) then Some(Io)
    else None
  }

  /** The file's content once `v` has been accepted. */
  function Content(m: Machine, p: Path, v: string): string
    requires Refusal(m, p, v) == None
  {
    if p == ChargeTypes then MoveBracket(m.files[p], v) else v + "\n"
  }

  function Written(m: Machine, p: Path, v: string): Machine {
    if Refusal(m, p, v) == None then m.(files := m.files[p := Content(m, p, v)]) else m
  }

  function Verdict(m: Machine, p: Path, v: string): Outcome {
    match Refusal(m, p, v) case None => Ok(()) case Some(e) => Err(e)
  }

  lemma WrittenFrame(m: Machine, p: Path, v: string)
    ensures OnlyChanged(m, Written(m, p, v), {p})
    ensures Verdict(m, p, v).Err? ==> Written(m, p, v) == m
    ensures Verdict(m, p, v).Ok? && p != ChargeTypes ==>
              p in m.files && Written(m, p, v).files[p] == v + "\n"
  {
  }

  lemma SelectAccepted(m: Machine, name: string)
    requires Verdict(m, ChargeTypes, name).Ok?
    ensures ChargeTypes in m.files && Selectable(m.files[ChargeTypes], name)
    ensures Written(m, ChargeTypes, name) == m.(files := m.files[ChargeTypes := MoveBracket(m.files[ChargeTypes], name)])
  {
    hide Selectable, MoveBracket;
  }

  /** Selecting a charge type twice is selecting it once, accepted or not. */
  lemma SelectTwice(m: Machine, name: string)
    ensures Written(Written(m, ChargeTypes, name), ChargeTypes, name) == Written(m, ChargeTypes, name)
  {
    if Refusal(m, ChargeTypes, name) == None {
      var raw := m.files[ChargeTypes];
      MoveBracketTwice(raw, name);
      hide Selectable, MoveBracket;
      var m' := Written(m, ChargeTypes, name);
      assert m'.files[ChargeTypes] == MoveBracket(raw, name);
      assert Written(m', ChargeTypes, name).files == m'.files;
    }
  }

  /** The sysfs tree the daemon and the command line write to. */
  class SysRoot {
    var m: Machine

    constructor (m: Machine)
      ensures this.m == m
    {
      this.m := m;
    }

    method Write(p: Path, v: string) returns (r: Outcome)
      modifies this
      ensures m == Written(old(m), p, v)
      ensures r == Verdict(old(m), p, v)
    {
      match Refusal(m, p, v) {
        case Some(e) =>
          r := Err(e);
        case None =>
          m := m.(files := m.files[p := Content(m, p, v)]);
          r := Ok(());
      }
    }

    /** Firmware and kernel act on their own: Fn+Q, a reset, a handler coming or going. */
    method Interfere(after: Machine)
      modifies this
      ensures m == after
    {
      m := after;
    }
  }
}
