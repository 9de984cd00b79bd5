/** The three settings written through sysfs: profile, charge mode and power limits. */
module Hardware {
  import opened Wrappers
  import opened Text
  import opened Listing
  import opened Names
  import opened Sysfs
  import opened Discovery
  import opened Battery
  import opened Attrs
  import opened Kernel

  // ── profile ───────────────────────────────────────────────────────────────

  function AfterSetProfile(m: Machine, p: PowerProfile): Machine {
    match ProfileFile(m) case None => m case Some(f) => Written(m, f, p.AsSysfs())
  }

  function SetProfileOutcome(m: Machine, p: PowerProfile): Outcome {
    match ProfileFile(m) case None => Err(NotSupported) case Some(f) => Verdict(m, f, p.AsSysfs())
  }

  /** Profiles the selected device advertises; one unknown word fails them all. */
  function Choices(m: Machine): Result<seq<PowerProfile>, HwError> {
    match Device(m)
    case None => Err(NotSupported)
    case Some(d) =>
      match Read(m, ProfileAttr(d, "choices"))
      case Err(e) => Err(e)
      case Ok(raw) => AllProfiles(SplitSpace(raw))
  }

  function AllProfiles(words: seq<string>): Result<seq<PowerProfile>, HwError> {
    if words == [] then Ok([])
    else
      match ProfileFromSysfs(words[0])
      case None => Err(Parse)
      case Some(p) =>
        match AllProfiles(words[1..]) case Err(e) => Err(e) case Ok(ps) => Ok([p] + ps)
  }

  lemma {:induction false} AllProfilesExact(words: seq<string>, ps: seq<PowerProfile>)
    ensures AllProfiles(words) == Ok(ps) <==>
              |ps| == |words| && forall i | 0 <= i < |ps| :: words[i] == ps[i].AsSysfs()
  {
    hide ProfileFromSysfs;
    if words != [] && ps != [] {
      ProfileSysfsExact(words[0], ps[0]);
      AllProfilesExact(words[1..], ps[1..]);
      assert ps == [ps[0]] + ps[1..];
    }
  }

  /** The advertised profiles are exactly the words of the selected device's list, in its order; a
      word that is no profile's leaves none. */
  lemma ChoicesExact(m: Machine, ps: seq<PowerProfile>)
    ensures Choices(m) == Ok(ps) <==>
              && Device(m).Some? && ProfileAttr(Device(m).value, "choices") in m.files
              && var words := SplitSpace(Trim(m.files[ProfileAttr(Device(m).value, "choices")]));
                 |ps| == |words| && forall i | 0 <= i < |ps| :: words[i] == ps[i].AsSysfs()
  {
    hide Device, Trim, SplitSpace, AllProfiles;
    if Device(m).Some? && ProfileAttr(Device(m).value, "choices") in m.files {
      AllProfilesExact(SplitSpace(Trim(m.files[ProfileAttr(Device(m).value, "choices")])), ps);
    }
  }

  /** The file a watcher opened now would follow, and what it would read there. */
  function WatchedFile(m: Machine): Result<Path, HwError> {
    match ProfileFile(m)
    case None => Err(NotSupported)
    case Some(f) => if f in m.files then Ok(f) else Err(NotSupported)
  }

  function Consume(m: Machine, f: Path): Result<PowerProfile, HwError> {
    match Read(m, f)
    case Err(e) => Err(e)
    case Ok(s) => match ProfileFromSysfs(s) case Some(p) => Ok(p) case None => Err(Parse)
  }

  method WriteProfile(root: SysRoot, p: PowerProfile) returns (r: Outcome)
    modifies root
    ensures root.m == AfterSetProfile(old(root.m), p)
    ensures r == SetProfileOutcome(old(root.m), p)
  {
    var dev := DeviceDir(root.m);
    match dev {
      case None => r := Err(NotSupported);
      case Some(d) => r := root.Write(ProfileAttr(d, "profile"), p.AsSysfs());
    }
  }

  /** Every accessor resolves to one device: what is set is what `get` and the watcher read,
      the advertised choices stay, and no file but that device's `profile` changes. */
  lemma OneDevice(m: Machine, p: PowerProfile)
    ensures SetProfileOutcome(m, p).Ok? ==>
              && Device(m).Some?
              && Device(AfterSetProfile(m, p)) == Device(m)
              && GetProfile(AfterSetProfile(m, p)) == Ok(p)
              && Choices(AfterSetProfile(m, p)) == Choices(m)
              && WatchedFile(AfterSetProfile(m, p)) == Ok(ProfileAttr(Device(m).value, "profile"))
              && Consume(AfterSetProfile(m, p), ProfileAttr(Device(m).value, "profile")) == Ok(p)
              && OnlyChanged(m, AfterSetProfile(m, p), {ProfileAttr(Device(m).value, "profile")})
    ensures SetProfileOutcome(m, p).Err? ==> AfterSetProfile(m, p) == m
  {
    if Device(m).Some? {
      var f := ProfileAttr(Device(m).value, "profile");
      WrittenFrame(m, f, p.AsSysfs());
      DeviceFrame(m, AfterSetProfile(m, p), {f});
      ProfileReparses(p);
    }
  }

  // ── charge mode ───────────────────────────────────────────────────────────

  function AfterSetMode(m: Machine, mode: ChargeMode): Machine {
    Written(m, ChargeTypes, mode.AsSysfs())
  }

  function SetModeOutcome(m: Machine, mode: ChargeMode): Outcome {
    Verdict(m, ChargeTypes, mode.AsSysfs())
  }

  /** The list in `charge_types` can be read, whether or not a mode is marked. */
  predicate ListReadable(m: Machine) {
    ChargeTypes in m.files && ChargeTypesOf(Trim(m.files[ChargeTypes])).Ok?
  }

  method WriteMode(root: SysRoot, mode: ChargeMode) returns (r: Outcome)
    modifies root
    ensures root.m == AfterSetMode(old(root.m), mode)
    ensures r == SetModeOutcome(old(root.m), mode)
  {
    r := root.Write(ChargeTypes, mode.AsSysfs());
  }

  lemma TrimParses(raw: string)
    ensures ChargeTypesOf(Trim(raw)) == ChargeTypesOf(raw)
  {
    SplitTrim(raw);
  }

  lemma SelectedMode(raw: string, mode: ChargeMode)
    requires Selectable(raw, mode.AsSysfs())
    ensures var r := ChargeTypesOf(Trim(MoveBracket(raw, mode.AsSysfs())));
            if ChargeTypesOf(Trim(raw)).Ok? then r.Ok? && r.value.active == Some(mode) else r.Err?
  {
    hide Selectable, MoveBracket, ChargeTypesOf, Trim;
    MoveBracketParses(raw, mode);
    TrimParses(raw);
    TrimParses(MoveBracket(raw, mode.AsSysfs()));
  }

  /** An accepted mode is read back exactly when the list could be read before: one type the
      toolkit does not know hides the active mode from it, set or not. */
  lemma SetThenGetMode(m: Machine, mode: ChargeMode)
    requires SetModeOutcome(m, mode).Ok?
    ensures GetMode(AfterSetMode(m, mode)) == Ok(mode) <==> ListReadable(m)
    ensures OnlyChanged(m, AfterSetMode(m, mode), {ChargeTypes})
  {
    hide Written, Verdict, Selectable, MoveBracket, ChargeTypesOf, Trim;
    SelectAccepted(m, mode.AsSysfs());
    SelectedMode(m.files[ChargeTypes], mode);
  }

  // ── power limits ──────────────────────────────────────────────────────────

  /** The toolkit's own checks before it asks the kernel. */
  function LimitRefusal(m: Machine, dir: string, watts: u32): Option<HwError> {
    match ReadByName(m, dir)
    case Err(e) => Some(e)
    case Ok(info) => if info.InRange(watts) then None else Some(Parse)
  }

  function AfterWriteLimit(m: Machine, dir: string, watts: u32): Machine {
    if LimitRefusal(m, dir, watts) == None then Written(m, CurrentValue(dir), Print(watts)) else m
  }

  function WriteLimitOutcome(m: Machine, dir: string, watts: u32): Outcome {
    match LimitRefusal(m, dir, watts)
    case Some(e) => Err(e)
    case None => Verdict(m, CurrentValue(dir), Print(watts))
  }

  method WriteByName(root: SysRoot, dir: string, watts: u32) returns (r: Outcome)
    modifies root
    ensures root.m == AfterWriteLimit(old(root.m), dir, watts)
    ensures r == WriteLimitOutcome(old(root.m), dir, watts)
  {
    match ReadByName(root.m, dir) {
      case Err(e) =>
        return Err(e);
      case Ok(info) =>
        if !info.InRange(watts) {
          return Err(Parse);
        }
    }
    r := root.Write(CurrentValue(dir), Print(watts));
  }

  /** Of an attribute's files at most `current_value` is among `ps`. */
  ghost predicate OnlyValueIn(ps: set<Path>, dir: string) {
    forall leaf | leaf != "current_value" :: FirmwareAttr(dir, leaf) !in ps
  }

  lemma OtherLeaf(m: Machine, m': Machine, ps: set<Path>, dir: string, leaf: string, default: u32)
    requires OnlyChanged(m, m', ps) && FirmwareAttr(dir, leaf) !in ps
    ensures ReadOpt(m', FirmwareAttr(dir, leaf)) == ReadOpt(m, FirmwareAttr(dir, leaf))
    ensures ReadU32Or(m', FirmwareAttr(dir, leaf), default) == ReadU32Or(m, FirmwareAttr(dir, leaf), default)
  {
    hide Trim, ParseU32;
  }

  lemma OtherLeaves(m: Machine, m': Machine, ps: set<Path>, dir: string)
    requires OnlyChanged(m, m', ps) && OnlyValueIn(ps, dir)
    ensures ReadOpt(m', FirmwareAttr(dir, "display_name")) == ReadOpt(m, FirmwareAttr(dir, "display_name"))
    ensures ReadU32Or(m', FirmwareAttr(dir, "default_value"), 0) == ReadU32Or(m, FirmwareAttr(dir, "default_value"), 0)
    ensures ReadU32Or(m', FirmwareAttr(dir, "min_value"), 0) == ReadU32Or(m, FirmwareAttr(dir, "min_value"), 0)
    ensures ReadU32Or(m', FirmwareAttr(dir, "max_value"), U32_MAX) == ReadU32Or(m, FirmwareAttr(dir, "max_value"), U32_MAX)
    ensures ReadU32Or(m', FirmwareAttr(dir, "scalar_increment"), 1)
         == ReadU32Or(m, FirmwareAttr(dir, "scalar_increment"), 1)
  {
    hide ReadOpt, ReadU32Or;
    OtherLeaf(m, m', ps, dir, "display_name", 0);
    OtherLeaf(m, m', ps, dir, "default_value", 0);
    OtherLeaf(m, m', ps, dir, "min_value", 0);
    OtherLeaf(m, m', ps, dir, "max_value", U32_MAX);
    OtherLeaf(m, m', ps, dir, "scalar_increment", 1);
  }

  lemma ReadSame(m: Machine, m': Machine, ps: set<Path>, dir: string)
    requires OnlyChanged(m, m', ps) && OnlyValueIn(ps, dir)
    requires CurrentValue(dir) in m.files ==> m'.files[CurrentValue(dir)] == m.files[CurrentValue(dir)]
    ensures ReadByName(m', dir) == ReadByName(m, dir)
  {
    OtherLeaves(m, m', ps, dir);
    hide Trim, ParseU32, ListKey, ReadOpt, ReadU32Or;
  }

  lemma ValueRead(m: Machine, p: Path, watts: u32)
    requires p in m.files && m.files[p] == Print(watts) + "\n"
    ensures ReadU32(m, p) == Ok(watts)
  {
    ParsePrint(watts);
    TrimWord(Print(watts));
  }

  lemma ReadUpdated(m: Machine, m': Machine, ps: set<Path>, dir: string, watts: u32)
    requires OnlyChanged(m, m', ps) && OnlyValueIn(ps, dir)
    requires ReadByName(m, dir).Ok? && m'.files[CurrentValue(dir)] == Print(watts) + "\n"
    ensures ReadByName(m', dir) == Ok(ReadByName(m, dir).value.(current := watts))
  {
    ValueRead(m', CurrentValue(dir), watts);
    OtherLeaves(m, m', ps, dir);
    hide ListKey, Print, Read, ReadOpt, ReadU32, ReadU32Or;
  }

  /** Whether a limit can be written depends on its bounds, the profile and the refusals. */
  lemma WritableSame(m: Machine, m': Machine, ps: set<Path>, dir: string, watts: u32)
    requires OnlyChanged(m, m', ps) && GetProfile(m') == GetProfile(m)
    requires ReadByName(m', dir).Ok? == ReadByName(m, dir).Ok?
    requires ReadByName(m, dir).Ok? ==>
               ReadByName(m', dir).value.InRange(watts) == ReadByName(m, dir).value.InRange(watts)
    ensures WriteLimitOutcome(m', dir, watts).Ok? == WriteLimitOutcome(m, dir, watts).Ok?
  {
    hide ReadByName, GetProfile, Print;
  }

  /** An accepted limit is what the attribute reads afterwards; nothing else about it, no other
      attribute, and neither the profile nor the selection changes. A failure changes nothing. */
  lemma WriteThenRead(m: Machine, dir: string, watts: u32)
    ensures var m' := AfterWriteLimit(m, dir, watts);
            && OnlyChanged(m, m', {CurrentValue(dir)})
            && Device(m') == Device(m) && GetProfile(m') == GetProfile(m)
            && (forall d | d != dir :: ReadByName(m', d) == ReadByName(m, d))
            && (if WriteLimitOutcome(m, dir, watts).Ok?
                then ReadByName(m, dir).Ok?
                     && ReadByName(m', dir) == Ok(ReadByName(m, dir).value.(current := watts))
                     && ReadByName(m, dir).value.InRange(watts)
                     && (m.gate ==> CustomSelected(m))
                else m' == m)
  {
    hide ReadByName, GetProfile, Device, Print;
    var m' := AfterWriteLimit(m, dir, watts);
    WrittenFrame(m, CurrentValue(dir), Print(watts));
    ProfileFrame(m, m', {CurrentValue(dir)});
    forall d | d != dir ensures ReadByName(m', d) == ReadByName(m, d) {
      ReadSame(m, m', {CurrentValue(dir)}, d);
    }
    if WriteLimitOutcome(m, dir, watts).Ok? {
      ReadUpdated(m, m', {CurrentValue(dir)}, dir, watts);
    }
  }

  /** `m` accepts this limit: in Custom when the gate is enforced, and within the bounds. */
  ghost predicate AcceptedLimit(m: Machine, dir: string, watts: u32) {
    && WriteLimitOutcome(m, dir, watts).Ok?
    && ReadByName(m, dir).Ok? && ReadByName(m, dir).value.InRange(watts)
    && (m.gate ==> CustomSelected(m))
  }

  lemma AcceptedExactly(m: Machine, dir: string, watts: u32)
    ensures AcceptedLimit(m, dir, watts) <==> WriteLimitOutcome(m, dir, watts).Ok?
  {
  }

  lemma BusyExactly(m: Machine, dir: string, watts: u32)
    requires m.gate && !CustomSelected(m) && LimitRefusal(m, dir, watts) == None
    ensures WriteLimitOutcome(m, dir, watts) == Err(Busy)
  {
  }

  lemma {:induction false} SameReadable(m: Machine, m': Machine, names: seq<string>)
    requires forall d | d in names :: ReadByName(m', d).Ok? == ReadByName(m, d).Ok?
    ensures Readable(m', names) == Readable(m, names)
  {
    if names != [] { SameReadable(m, m', names[1..]); }
  }

  /** A successful write shows up in the listing as the new value of exactly the written
      directory's entry: same entries, same order, every other field and entry as before. */
  lemma WriteThenList(m: Machine, dir: string, watts: u32)
    requires WriteLimitOutcome(m, dir, watts).Ok?
    ensures var m' := AfterWriteLimit(m, dir, watts);
            && ListedDirs(m') == ListedDirs(m)
            && forall i | 0 <= i < |ListAll(m)| ::
                 ListAll(m')[i] == if ListedDirs(m)[i] == dir then ListAll(m)[i].(current := watts)
                                   else ListAll(m)[i]
  {
    WriteThenRead(m, dir, watts);
    SameReadable(m, AfterWriteLimit(m, dir, watts), Sort(m.attrDir));
  }

  /** For every accepted spelling and every accepted value, the entry under the recorded key
      shows that value, read back through decimal text. */
  lemma SetThenFind(m: Machine, attr: string, watts: u32)
    requires PlainNames(m) && WriteDir(attr) in m.attrDir
    requires WriteLimitOutcome(m, WriteDir(attr), watts).Ok?
    ensures var found := FindAttr(ListAll(AfterWriteLimit(m, WriteDir(attr), watts)), RecordKey(attr));
            && found.Some? && found.value.current == watts
            && FindAttr(ListAll(m), RecordKey(attr)) == Some(ReadByName(m, WriteDir(attr)).value)
            && found.value == ReadByName(m, WriteDir(attr)).value.(current := watts)
  {
    var dir := WriteDir(attr);
    var m' := AfterWriteLimit(m, dir, watts);
    WriteThenRead(m, dir, watts);
    assert RecordKey(attr) == ListKey(dir) by {
      match PptFromKey(attr) {
        case Some(a) => PptDirExact(dir, a);
        case None => PlainKeys(m, dir);
      }
    }
    FindListed(m, dir);
    FindListed(m', dir);
  }
}
