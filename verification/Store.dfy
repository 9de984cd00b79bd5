/** The settings the daemon remembers, and the file it keeps them in. */
module Store {
  import opened Wrappers
  import opened Text
  import opened Names

  datatype State = State(profile: Option<string>, batteryMode: Option<string>, ppt: map<string, u32>)

  const DEFAULT: State := State(None, None, map[])

  /** A file that should hold a state: encoded whole, or not decodable. */
  datatype DiskFile = Absent | Intact(state: State) | Garbage

  /** Missing and undecodable files both load as the default. */
  function Load(f: DiskFile): State {
    match f case Intact(s) => s case _ => DEFAULT
  }

  /** How far one attempt to save gets. Until the temporary file is complete, it may be left
      in any condition; the rename happens or does not. */
  datatype SaveFate =
    | TempFails(tmp: DiskFile)
    | RenameFails
    | Saved

  class StateFile {
    var main: DiskFile
    var tmp: DiskFile

    constructor (main: DiskFile, tmp: DiskFile)
      ensures this.main == main && this.tmp == tmp
    {
      this.main := main;
      this.tmp := tmp;
    }

    method WriteTemp(s: State, fate: SaveFate) returns (ok: bool)
      modifies this`tmp
      ensures ok == !fate.TempFails?
      ensures tmp == if fate.TempFails? then fate.tmp else Intact(s)
    {
      ok := !fate.TempFails?;
      tmp := if fate.TempFails? then fate.tmp else Intact(s);
    }

    /** Replaces the state file by the temporary one, in one step. */
    method Rename(fate: SaveFate) returns (ok: bool)
      modifies this
      ensures ok == fate.Saved?
      ensures if fate.Saved? then main == old(tmp) && tmp == Absent
              else main == old(main) && tmp == old(tmp)
    {
      ok := fate.Saved?;
      if ok {
        main, tmp := tmp, Absent;
      }
    }

    /** Saving changes the state file only at the very end, and only to the whole new state. */
    method Save(s: State, fate: SaveFate) returns (ok: bool)
      modifies this
      ensures ok == fate.Saved?
      ensures main == if fate.Saved? then Intact(s) else old(main)
      ensures tmp == match fate case TempFails(t) => t case RenameFails => Intact(s) case Saved => Absent
      ensures ok ==> Load(main) == s
    {
      ok := WriteTemp(s, fate);
      if ok {
        ok := Rename(fate);
      }
    }
  }

  // ── recordings ────────────────────────────────────────────────────────────

  /** What a successful setter adds to the state. */
  datatype Rec = RecProfile(p: PowerProfile) | RecMode(mode: ChargeMode) | RecPpt(key: string, watts: u32)

  function Recorded(s: State, r: Rec): State {
    match r
    case RecProfile(p) => s.(profile := Some(p.AsSysfs()))
    case RecMode(m) => s.(batteryMode := Some(m.AsSysfs()))
    case RecPpt(key, watts) => s.(ppt := s.ppt[key := watts])
  }

  /** The state after recordings made one after the other. */
  function Replay(base: State, recs: seq<Rec>): State {
    if recs == [] then base else Recorded(Replay(base, recs[..|recs| - 1]), recs[|recs| - 1])
  }

  lemma ReplaySnoc(base: State, recs: seq<Rec>, r: Rec)
    ensures Replay(base, recs + [r]) == Recorded(Replay(base, recs), r)
  {
    assert (recs + [r])[..|recs|] == recs;
  }

  /** Every remembered limit is the base's or the last one recorded under its key. */
  lemma {:induction false} ReplayLimit(base: State, recs: seq<Rec>, key: string)
    requires key in Replay(base, recs).ppt
    ensures (key in base.ppt && Replay(base, recs).ppt[key] == base.ppt[key])
            || RecPpt(key, Replay(base, recs).ppt[key]) in recs
  {
    if recs != [] {
      var front, r := recs[..|recs| - 1], recs[|recs| - 1];
      if r.RecPpt? && r.key == key {
        assert recs[|recs| - 1] == RecPpt(key, r.watts);
      } else {
        ReplayLimit(base, front, key);
      }
    }
  }

  ghost predicate CanonicalKeys(ppt: map<string, u32>) {
    forall k | k in ppt :: Canonical(k)
  }

  ghost predicate CanonicalRec(r: Rec) {
    r.RecPpt? ==> Canonical(r.key)
  }

  lemma ReplayCanonical(base: State, recs: seq<Rec>)
    requires CanonicalKeys(base.ppt) && forall r | r in recs :: CanonicalRec(r)
    ensures CanonicalKeys(Replay(base, recs).ppt)
  {
    forall k | k in Replay(base, recs).ppt ensures Canonical(k) {
      ReplayLimit(base, recs, k);
      if RecPpt(k, Replay(base, recs).ppt[k]) in recs {
        assert CanonicalRec(RecPpt(k, Replay(base, recs).ppt[k]));
      }
    }
  }
}
