/** Which platform-profile handler to drive, and what profile it is in. */
module Discovery {
  import opened Wrappers
  import Text
  import opened Listing
  import opened Names
  import opened Sysfs

  const GAMEZONE: string := "lenovo-wmi-gamezone"

  predicate IsGamezone(m: Machine, entry: string) {
    ReadOpt(m, ProfileAttr(entry, "name")) == Some(GAMEZONE)
  }

  /** The name is compared as it is, in the one spelling of the upstream driver. */
  lemma GamezoneExactly(m: Machine, entry: string)
    ensures IsGamezone(m, entry) <==>
              ProfileAttr(entry, "name") in m.files && Text.Trim(m.files[ProfileAttr(entry, "name")]) == "lenovo-wmi-gamezone"
  {
    hide Text.Trim;
  }

  /** The selected device: the first gamezone entry of the sorted listing, else its first entry. */
  function Device(m: Machine): Option<string> {
    var names := Sort(m.profileDir);
    match Find(names, (e: string) => IsGamezone(m, e))
    case Some(e) => Some(e)
    case None => if names == [] then None else Some(names[0])
  }

  /** The scan as the toolkit performs it: one pass that remembers a fallback. */
  method DeviceDir(m: Machine) returns (dev: Option<string>)
    ensures dev == Device(m)
  {
    hide IsGamezone, Sort;
    var names := Sort(m.profileDir);
    ghost var isGamezone := (e: string) => IsGamezone(m, e);
    var fallback: Option<string> := None;
    var i := 0;
    while i < |names|
      invariant 0 <= i <= |names|
      invariant forall j | 0 <= j < i :: !IsGamezone(m, names[j])
      invariant fallback == if i == 0 then None else Some(names[0])
    {
      if IsGamezone(m, names[i]) {
        assert isGamezone(names[i]);
        FirstIsUnique(names, isGamezone, i);
        return Some(names[i]);
      }
      if fallback == None {
        fallback := Some(names[i]);
      }
      i := i + 1;
    }
    return fallback;
  }

  lemma FirstIsUnique(xs: seq<string>, p: string -> bool, i: nat)
    requires i < |xs| && p(xs[i]) && forall j | 0 <= j < i :: !p(xs[j])
    ensures Find(xs, p) == Some(xs[i])
  {
    var r := Find(xs, p);
    assert r.Some?;
    var k :| 0 <= k < |xs| && xs[k] == r.value && p(xs[k]) && forall j | 0 <= j < k :: !p(xs[j]);
  }

  ghost predicate HasGamezone(m: Machine) {
    exists e | e in m.profileDir :: IsGamezone(m, e)
  }

  /** `d` is the least entry, among the gamezone entries when there are any. */
  ghost predicate IsLeastChoice(m: Machine, d: string) {
    && d in m.profileDir
    && (HasGamezone(m) ==> IsGamezone(m, d))
    && forall e | e in m.profileDir && (HasGamezone(m) ==> IsGamezone(m, e)) :: Leq(d, e)
  }

  /** In a sorted listing the first match is the least match. */
  lemma FirstIsLeast(names: seq<string>, p: string -> bool)
    requires Sorted(names)
    ensures Find(names, p).None? ==> forall e | e in names :: !p(e)
    ensures Find(names, p).Some? ==>
              && Find(names, p).value in names && p(Find(names, p).value)
              && forall e | e in names && p(e) :: Leq(Find(names, p).value, e)
  {
    var r := Find(names, p);
    if r.Some? {
      var k :| 0 <= k < |names| && names[k] == r.value && p(names[k]) && forall j | 0 <= j < k :: !p(names[j]);
      forall e | e in names && p(e) ensures Leq(r.value, e) {
        var j :| 0 <= j < |names| && names[j] == e;
        assert k <= j;
        LeqRefl(e);
      }
    }
  }

  lemma DeviceIsChoice(m: Machine)
    requires m.profileDir != []
    ensures Device(m).Some? && IsLeastChoice(m, Device(m).value)
  {
    var names := Sort(m.profileDir);
    SortSorts(m.profileDir);
    forall e ensures e in names <==> e in m.profileDir { SortMembers(m.profileDir, e); }
    var p := (e: string) => IsGamezone(m, e);
    FirstIsLeast(names, p);
    if Find(names, p).Some? {
      assert p(Device(m).value);
      forall e | e in m.profileDir && IsGamezone(m, e) ensures Leq(Device(m).value, e) { assert p(e); }
    } else {
      forall e | e in m.profileDir ensures !IsGamezone(m, e) { assert !p(e); }
      forall e | e in m.profileDir ensures Leq(names[0], e) { LeastFirst(names, e); }
    }
  }

  /** Discovery without order: nothing for an empty class, and otherwise exactly the least
      gamezone entry, or the least entry when no entry is a gamezone. */
  lemma DeviceIsLeast(m: Machine, d: string)
    ensures Device(m) == None <==> m.profileDir == []
    ensures Device(m) == Some(d) <==> IsLeastChoice(m, d)
  {
    if m.profileDir != [] {
      DeviceIsChoice(m);
      if IsLeastChoice(m, d) { LeqAntisym(d, Device(m).value); }
    }
  }

  /** The device is a function of the set of handlers and their names, not of read order. */
  lemma DeviceIgnoresOrder(m: Machine, m': Machine)
    requires forall e :: e in m.profileDir <==> e in m'.profileDir
    requires forall e | e in m.profileDir :: IsGamezone(m, e) == IsGamezone(m', e)
    ensures Device(m) == Device(m')
  {
    assert |m'.profileDir| > 0 ==> m'.profileDir[0] in m.profileDir;
    if m.profileDir == [] {
      assert |m'.profileDir| == 0;
    } else {
      DeviceIsLeast(m, "");
      var d := Device(m).value;
      DeviceIsLeast(m, d);
      assert HasGamezone(m) == HasGamezone(m');
      DeviceIsLeast(m', d);
    }
  }

  /** Once there is a gamezone handler, registering handlers of other names changes nothing. */
  lemma OtherHandlersIgnored(m: Machine, m': Machine)
    requires HasGamezone(m)
    requires forall e | e in m.profileDir :: e in m'.profileDir && IsGamezone(m', e) == IsGamezone(m, e)
    requires forall e | e in m'.profileDir && e !in m.profileDir :: !IsGamezone(m', e)
    ensures Device(m') == Device(m)
  {
    assert m.profileDir != [];
    DeviceIsLeast(m, "");
    var d := Device(m).value;
    DeviceIsLeast(m, d);
    assert HasGamezone(m') by { assert d in m'.profileDir; }
    DeviceIsLeast(m', d);
  }

  /** `e` is chosen before `d`: gamezone entries first, then by name. */
  predicate Outranks(m: Machine, e: string, d: string) {
    if IsGamezone(m, e) == IsGamezone(m, d) then e != d && Leq(e, d) else IsGamezone(m, e)
  }

  /** When handlers are added, the selected one stays selected exactly if no new one outranks it. */
  lemma StaysSelectedExactly(m: Machine, m': Machine, d: string)
    requires Device(m) == Some(d)
    requires forall e | e in m.profileDir :: e in m'.profileDir && IsGamezone(m', e) == IsGamezone(m, e)
    ensures Device(m') == Some(d) <==> forall e | e in m'.profileDir && e !in m.profileDir :: !Outranks(m', e, d)
  {
    hide IsGamezone, Device, Leq;
    DeviceIsLeast(m, d);
    DeviceIsLeast(m', d);
    if IsLeastChoice(m', d) {
      forall e | e in m'.profileDir && e !in m.profileDir ensures !Outranks(m', e, d) {
        if e != d && Leq(d, e) && Leq(e, d) { LeqAntisym(d, e); }
      }
    } else if forall e | e in m'.profileDir && e !in m.profileDir :: !Outranks(m', e, d) {
      NotOutranked(m, m', d);
    }
  }

  lemma NotOutranked(m: Machine, m': Machine, d: string)
    requires IsLeastChoice(m, d)
    requires forall e | e in m.profileDir :: e in m'.profileDir && IsGamezone(m', e) == IsGamezone(m, e)
    requires forall e | e in m'.profileDir && e !in m.profileDir :: !Outranks(m', e, d)
    ensures IsLeastChoice(m', d)
  {
    hide IsGamezone, Leq;
    forall e | e in m'.profileDir && (HasGamezone(m') ==> IsGamezone(m', e)) ensures Leq(d, e) {
      LeqTotal(d, e);
      LeqRefl(d);
      if e in m.profileDir {
        assert HasGamezone(m) ==> HasGamezone(m');
      }
    }
  }

  // ── the active profile ────────────────────────────────────────────────────

  function ProfileFile(m: Machine): Option<Path> {
    match Device(m) case Some(d) => Some(ProfileAttr(d, "profile")) case None => None
  }

  function GetProfile(m: Machine): Result<PowerProfile, HwError> {
    match ProfileFile(m)
    case None => Err(NotSupported)
    case Some(f) =>
      match Read(m, f)
      case Err(e) => Err(e)
      case Ok(s) => match ProfileFromSysfs(s) case Some(p) => Ok(p) case None => Err(Parse)
  }

  /** The active profile, for every content of the file: its trimmed text is the kernel's name of it. No
      device or no file is not supported; any other text does not parse. */
  lemma GetProfileExactly(m: Machine, p: PowerProfile)
    ensures GetProfile(m) == Ok(p) <==>
              && Device(m).Some? && ProfileAttr(Device(m).value, "profile") in m.files
              && Text.Trim(m.files[ProfileAttr(Device(m).value, "profile")]) == p.AsSysfs()
    ensures GetProfile(m).Err? ==>
              GetProfile(m).error
              == if Device(m).Some? && ProfileAttr(Device(m).value, "profile") in m.files then Parse else NotSupported
  {
    hide Device, Text.Trim, ProfileFromSysfs;
    if Device(m).Some? && ProfileAttr(Device(m).value, "profile") in m.files {
      ProfileSysfsExact(Text.Trim(m.files[ProfileAttr(Device(m).value, "profile")]), p);
    }
  }

  /** What the firmware's gate looks at. */
  predicate CustomSelected(m: Machine) {
    GetProfile(m) == Ok(Custom)
  }

  /** Selection depends on the class directory and the `name` files only. */
  lemma DeviceFrame(m: Machine, m': Machine, ps: set<Path>)
    requires OnlyChanged(m, m', ps)
    requires forall e :: ProfileAttr(e, "name") !in ps
    ensures Device(m') == Device(m)
  {
    forall e ensures IsGamezone(m', e) == IsGamezone(m, e) {
      assert ProfileAttr(e, "name") !in ps;
    }
    DeviceIgnoresOrder(m, m');
  }

  /** The active profile depends on the selection and the selected device's `profile` file. */
  lemma ProfileFrame(m: Machine, m': Machine, ps: set<Path>)
    requires OnlyChanged(m, m', ps)
    requires forall e :: ProfileAttr(e, "name") !in ps
    requires Device(m).Some? ==> ProfileAttr(Device(m).value, "profile") !in ps
    ensures Device(m') == Device(m) && GetProfile(m') == GetProfile(m)
  {
    DeviceFrame(m, m', ps);
  }
}
