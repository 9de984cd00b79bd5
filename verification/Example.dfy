/** A laptop, and runs on it, at which the conditions of the results hold and the promises fail. */
module Example {
  import opened Wrappers
  import opened Text
  import Listing
  import opened Names
  import opened Sysfs
  import opened Discovery
  import opened Battery
  import opened Attrs
  import opened Hardware
  import opened Store
  import opened Reapply
  import opened Protocol
  import opened Ctl
  import opened Watch
  import opened Converge
  import Live
  import Slider

  const HANDLER: string := "platform-profile-0"

  const FILE: Path := ProfileAttr(HANDLER, "profile")

  /** One handler, in Balanced, and one firmware attribute, at `n` watts and without bounds. */
  function Laptop(dir: string, n: u32): Machine {
    Machine(map[FILE := Balanced.AsSysfs() + "\n", CurrentValue(dir) := Print(n) + "\n"],
            [HANDLER], [dir], true, map[])
  }

  /** The same after the user has pressed Fn+Q. */
  function Pressed(dir: string, n: u32, to: Shown): Machine {
    Live.FnQ(Laptop(dir, n), FILE, to)
  }

  /** A single handler is the device, whatever it is called. */
  lemma OneHandler(m: Machine, d: string)
    requires m.profileDir == [d]
    ensures Device(m) == Some(d)
  {
    Listing.LeqRefl(d);
    hide Device, IsGamezone, Listing.Leq;
    assert m.profileDir[0] == d;
    assert IsLeastChoice(m, d);
    DeviceIsLeast(m, d);
  }

  lemma LaptopProfile(dir: string, n: u32)
    ensures Device(Laptop(dir, n)) == Some(HANDLER) && ProfileFile(Laptop(dir, n)) == Some(FILE)
    ensures GetProfile(Laptop(dir, n)) == Ok(Balanced)
    ensures Reading(Laptop(dir, n), FILE) == Some(Balanced)
  {
    OneHandler(Laptop(dir, n), HANDLER);
    ProfileReparses(Balanced);
    hide Device, ProfileFromSysfs, Trim, Print;
  }

  lemma LaptopLimit(dir: string, n: u32, watts: u32)
    ensures LimitRefusal(Laptop(dir, n), dir, watts) == None
    ensures var r := ReadByName(Laptop(dir, n), dir);
            r.Ok? && r.value.current == n && r.value.min == 0 && r.value.max == U32_MAX
  {
    hide ReadByName, Print;
    DirectoryReadsBack(Laptop(dir, n), dir, Some(n), None, None, None, None);
  }

  lemma LaptopTakes(dir: string, n: u32, p: PowerProfile)
    ensures SetProfileOutcome(Laptop(dir, n), p).Ok?
    ensures p == Balanced ==> AfterSetProfile(Laptop(dir, n), p) == Laptop(dir, n)
  {
    LaptopProfile(dir, n);
    hide Device, GetProfile, Print;
    if p == Balanced { assert AfterSetProfile(Laptop(dir, n), p).files == Laptop(dir, n).files; }
  }

  /** In Custom the laptop takes any limit, and still any profile. */
  lemma CustomLaptop(dir: string, n: u32, watts: u32, p: PowerProfile)
    ensures var m := Pressed(dir, n, Some(Custom));
            && CustomSelected(m) && AcceptedLimit(m, dir, watts) && LimitRefusal(m, dir, watts) == None
            && m.gate && m.refuse == map[] && SetProfileOutcome(m, p).Ok?
            && ReadByName(m, dir) == ReadByName(Laptop(dir, n), dir)
  {
    var l, m := Laptop(dir, n), Pressed(dir, n, Some(Custom));
    LaptopProfile(dir, n);
    LaptopLimit(dir, n, watts);
    hide Print, ReadByName, Device, Reading, ProfileFromSysfs, Trim, CustomSelected;
    Live.FnQReads(l, FILE, Some(Custom));
    CustomRead(m);
    ReadSame(l, m, {FILE}, dir);
    AcceptedInCustom(m, dir, watts);
    AcceptedExactly(m, dir, watts);
  }

  lemma CustomRead(m: Machine)
    requires ProfileFile(m) == Some(FILE) && Reading(m, FILE) == Some(Custom)
    ensures CustomSelected(m)
  {
    hide Device, Read, ProfileFromSysfs;
  }

  // ── a reset undone ────────────────────────────────────────────────────────

  /** What the daemon remembers: Custom and `watts` for the limit. */
  function Remembered(a: PptAttr, watts: u32): State {
    State(Some(Custom.AsSysfs()), None, map[a.Key() := watts])
  }

  lemma OneKey(key: string, watts: u32)
    requires Canonical(key)
    ensures Enumerates([key], map[key := watts]) && CanonicalKeys(map[key := watts])
    ensures map[][key := watts] == map[key := watts]
  {
    assert map[key := watts].Keys == {key};
    hide Canonical;
  }

  lemma KeyItself(a: PptAttr)
    ensures Canonical(a.Key()) && RecordKey(a.Key()) == a.Key() && WriteDir(a.Key()) == a.DirName()
    ensures PptFromDir(a.DirName()) == Some(a)
  {
    PptReparses(a);
    PptDirExact(a.DirName(), a);
    hide PptFromKey, PptFromDir;
  }

  /** A reset to Balanced and another limit is undone; with the limits first it would not be. */
  lemma UndoneByReapplying(a: PptAttr, n: u32, watts: u32)
    ensures var m, st, order := Laptop(a.DirName(), n), Remembered(a, watts), [a.Key()];
            && Enumerates(order, st.ppt) && !CustomSelected(m)
            && CustomSelected(Reapplied(m, st, order))
            && ReadByName(Reapplied(m, st, order), a.DirName()).Ok?
            && ReadByName(Reapplied(m, st, order), a.DirName()).value.current == watts
            && ReapplyLimits(m, st.ppt, order) == m
  {
    var m, st, order := Laptop(a.DirName(), n), Remembered(a, watts), [a.Key()];
    LaptopProfile(a.DirName(), n);
    LaptopLimit(a.DirName(), n, watts);
    LaptopTakes(a.DirName(), n, Custom);
    KeyItself(a);
    OneKey(a.Key(), watts);
    hide LimitRefusal, Reapplied, ReapplyLimits, ReadByName, GetProfile, Device, Enumerates, SetProfileOutcome, Print, PptFromKey,
         CanonicalKeys;
    RestoredLimits(m, st, order, a);
    LimitsFirstLost(m, st.ppt, order);
  }

  // ── a choice and a limit lost by reapplying ───────────────────────────────

  const DONE: Closing := Closing(Saved, true)

  /** A daemon started on the laptop with nothing on disk. */
  function Started(dir: string, n: u32): World {
    Run(Off(Laptop(dir, n), Absent, Absent), [Restart([])])
  }

  lemma StartedBlank(dir: string, n: u32)
    ensures var w := Started(dir, n);
            w.alive && w.pc == Idle && w.mem == DEFAULT && w.m == Laptop(dir, n)
  {
    RunOne(Off(Laptop(dir, n), Absent, Absent), Restart([]));
    assert ReapplyLimits(Laptop(dir, n), map[], []) == Laptop(dir, n);
    hide Laptop, Run;
  }

  /** Balanced is set through the daemon, then the user presses Fn+Q until Custom. */
  function Overridden(dir: string, n: u32): World {
    var w := Served(Started(dir, n), true, SetProfile(Balanced.AsSysfs()), None, DONE);
    Step(w, Environment(Pressed(dir, n, Some(Custom))))
  }

  lemma BalancedServed(dir: string, n: u32)
    ensures var w := Served(Started(dir, n), true, SetProfile(Balanced.AsSysfs()), None, DONE);
            && w.alive && w.pc == Idle && w.m == Laptop(dir, n)
            && w.mem == DEFAULT.(profile := Some(Balanced.AsSysfs()))
  {
    StartedBlank(dir, n);
    ProfileReparses(Balanced);
    LaptopTakes(dir, n, Balanced);
    hide Started, Laptop, Served, AfterSetProfile, SetProfileOutcome, ProfileFromUser;
    ServedChecked(Started(dir, n), true, SetProfile(Balanced.AsSysfs()), None, DONE, JobProfile(Balanced));
  }

  /** Where the user then stands. */
  lemma OverriddenState(dir: string, n: u32, watts: u32)
    ensures var w := Overridden(dir, n);
            && w.alive && w.pc == Idle && w.mem == DEFAULT.(profile := Some(Balanced.AsSysfs()))
            && CustomSelected(w.m) && AcceptedLimit(w.m, dir, watts)
  {
    BalancedServed(dir, n);
    CustomLaptop(dir, n, watts, Balanced);
    PressedStep(Served(Started(dir, n), true, SetProfile(Balanced.AsSysfs()), None, DONE), Pressed(dir, n, Some(Custom)));
    hide Laptop, Pressed, Served, Started, GetProfile, CustomSelected, AcceptedLimit, Step;
  }

  lemma PressedStep(w: World, after: Machine)
    ensures Step(w, Environment(after)) == w.(m := after)
  {
  }

  lemma OverriddenReachable(dir: string, n: u32)
    ensures exists events :: Overridden(dir, n) == Run(Off(Laptop(dir, n), Absent, Absent), events)
  {
    hide Step, Served, Run, Laptop, Pressed;
    var off := Off(Laptop(dir, n), Absent, Absent);
    ServedIsRun(Started(dir, n), true, SetProfile(Balanced.AsSysfs()), None, DONE);
    var w := Served(Started(dir, n), true, SetProfile(Balanced.AsSysfs()), None, DONE);
    var events :| w == Run(Started(dir, n), events);
    RunThen(off, [Restart([])], events);
    var pressed := Environment(Pressed(dir, n, Some(Custom)));
    RunSnoc(off, [Restart([])] + events, pressed);
    assert Overridden(dir, n) == Run(off, [Restart([])] + events + [pressed]);
  }

  /** From a first start there is a run to a state in which a limit is set, accepted and remembered. The
      firmware then forgets the limit, with the laptop still in the user's Custom, and the next resume
      leaves it in Balanced without the limit. Had the pass not reapplied the profile, the laptop
      would be in Custom with the limit back. */
  lemma NotRestored(a: PptAttr, n: u32, watts: u32)
    ensures var dir := a.DirName();
            exists events :: Overridden(dir, n) == Run(Off(Laptop(dir, n), Absent, Absent), events)
    ensures var dir, after := a.DirName(), Pressed(a.DirName(), n, Some(Custom));
            var w1 := Served(Overridden(dir, n), true, SetPpt(a.Key(), watts), None, DONE);
            var w2 := Step(Step(w1, Environment(after)), Resume([a.Key()]));
            && w1.reply == Some(Ok(())) && w1.mem.ppt == map[a.Key() := watts]
            && CustomSelected(after) && GetProfile(w2.m) == Ok(Balanced)
            && ReadByName(w2.m, dir).Ok? && ReadByName(w2.m, dir).value.current == n
            && Enumerates([a.Key()], w1.mem.ppt)
            && var bare := Reapplied(after, WithoutProfile(w1.mem), [a.Key()]);
               CustomSelected(bare) && ReadByName(bare, dir).Ok? && ReadByName(bare, dir).value.current == watts
  {
    var dir, after := a.DirName(), Pressed(a.DirName(), n, Some(Custom));
    hide *;
    OverriddenReachable(dir, n);
    OverriddenState(dir, n, watts);
    CustomLaptop(dir, n, watts, Balanced);
    LaptopLimit(dir, n, watts);
    KeyItself(a);
    OneKey(a.Key(), watts);
    NothingCanonical();
    RememberedNotRestored(Overridden(dir, n), a.Key(), watts, DONE, after, [a.Key()], Balanced);
    SetPptTransaction(Overridden(dir, n), true, a.Key(), watts, None, DONE);
    BareReapplied(after, Served(Overridden(dir, n), true, SetPpt(a.Key(), watts), None, DONE).mem, a, watts);
  }

  lemma NothingCanonical()
    ensures CanonicalKeys(DEFAULT.ppt) && Balanced != Custom && DEFAULT.ppt == map[]
  {
  }

  /** Without a profile to restore, a limit comes back to a laptop in Custom. */
  lemma BareReapplied(m: Machine, st: State, a: PptAttr, watts: u32)
    requires st.ppt == map[a.Key() := watts] && Enumerates([a.Key()], st.ppt)
    requires CustomSelected(m) && LimitRefusal(m, a.DirName(), watts) == None && m.refuse == map[]
    ensures var bare := Reapplied(m, WithoutProfile(st), [a.Key()]);
            CustomSelected(bare) && ReadByName(bare, a.DirName()).Ok? && ReadByName(bare, a.DirName()).value.current == watts
  {
    var bare := WithoutProfile(st);
    KeyItself(a);
    OneKey(a.Key(), watts);
    assert Takeable(m, bare, a) && CustomAhead(m, bare) && RecordedProfile(bare) == None;
    hide Reapplied, Enumerates, CanonicalKeys, ReadByName, Takeable, CustomAhead, RecordedProfile, GetProfile, PptFromDir;
    ComesBackExactly(m, bare, [a.Key()], a.DirName());
    ProfileKeptExactly(m, bare, [a.Key()]);
  }

  // ── a limit of another name ───────────────────────────────────────────────

  const OTHER: string := "gpu_nv_ctgp"

  lemma OtherName()
    ensures PptFromKey(OTHER).None? && Canonical(OTHER)
  {
    hide Lower, Trim, PptFromKey, IsWord;
    PlainName(OTHER);
    assert OTHER[0] == 'g';
    forall a ensures PptFromKey(OTHER) != Some(a) {
      PptKeyExact(OTHER, a);
      assert a.Key()[0] != 'g' && a.DirName()[0] != 'g';
    }
  }

  /** On a laptop with this attribute a limit on it is accepted and remembered, and a resume after the
      firmware has forgotten it, still in Custom, does not bring it back. */
  lemma OtherNotRestored(n: u32, watts: u32)
    ensures var after := Pressed(OTHER, n, Some(Custom));
            var w1 := Served(Overridden(OTHER, n), true, SetPpt(OTHER, watts), None, DONE);
            var w2 := Step(Step(w1, Environment(after)), Resume([OTHER]));
            && w1.reply == Some(Ok(())) && w1.mem.ppt == map[OTHER := watts]
            && ReadByName(w2.m, OTHER).Ok? && ReadByName(w2.m, OTHER).value.current == n
  {
    OtherName();
    hide *;
    OverriddenState(OTHER, n, watts);
    CustomLaptop(OTHER, n, watts, Balanced);
    LaptopLimit(OTHER, n, watts);
    OneKey(OTHER, watts);
    NothingCanonical();
    OtherLimitNotRestored(Overridden(OTHER, n), OTHER, watts, DONE, Pressed(OTHER, n, Some(Custom)), [OTHER]);
  }

  // ── a profile that cannot be read ─────────────────────────────────────────

  /** The device is there and its file can be opened, but it holds no profile's name. */
  lemma UnreadableProfile(dir: string, n: u32)
    ensures var m := Pressed(dir, n, None);
            GetProfile(m) == Err(Parse) && ProfileFile(m) == Some(FILE) && WatchedFile(m) == Ok(FILE) && !CustomSelected(m)
  {
    LaptopProfile(dir, n);
    Live.FnQKeeps(Laptop(dir, n), FILE, None);
    Live.ContentReads(None);
    hide Device, ProfileFromSysfs, Trim, Print;
    Live.FnQReads(Laptop(dir, n), FILE, None);
  }

  /** A daemon started then runs without a watcher, although there is a device to watch. */
  method Unwatched(dir: string, n: u32) returns (w: Option<ProfileWatcher>)
    ensures ProfileFile(Pressed(dir, n, None)) == Some(FILE) && w == None
  {
    UnreadableProfile(dir, n);
    w := Open(Pressed(dir, n, None));
  }

  /** And the command line's two paths answer differently: the profile shown, the charge mode of this
      laptop, which has none, and a limit. */
  lemma UnreadableAnswers(a: PptAttr, n: u32, watts: u32, w: World, closing: Closing)
    requires w.alive && w.pc == Idle && w.m == Pressed(a.DirName(), n, None)
    ensures ProfileServed(w, true, None, None, closing).1 == Name("")
    ensures ProfileDirect(w.m, None).1 == Failure(InvalidArgument)
    ensures BatteryServed(w, true, None, None, closing).1 == Name("")
    ensures BatteryDirect(w.m, None).1 == Failure(Unsupported)
    ensures PptServed(w, true, Some(a.Key()), Some(watts), None, closing).1 == Failure(InvalidArgument)
    ensures PptDirect(w.m, Some(a.Key()), Some(watts)).1 == Failure(CustomModeRequired)
  {
    UnreadableProfile(a.DirName(), n);
    UnreadableShown(w, closing);
    NoChargeTypes(a.DirName(), n);
    hide *;
    NoModeShown(w, closing);
    UnreadableLimit(a, n, watts, w, closing);
  }

  lemma UnreadableShown(w: World, closing: Closing)
    requires GetProfile(w.m) == Err(Parse)
    ensures ProfileServed(w, true, None, None, closing).1 == Name("")
    ensures ProfileDirect(w.m, None).1 == Failure(InvalidArgument)
  {
    hide GetProfile;
  }

  lemma NoModeShown(w: World, closing: Closing)
    requires GetMode(w.m) == Err(NotSupported)
    ensures BatteryServed(w, true, None, None, closing).1 == Name("")
    ensures BatteryDirect(w.m, None).1 == Failure(Unsupported)
  {
    hide GetMode;
  }

  lemma NoChargeTypes(dir: string, n: u32)
    ensures GetMode(Pressed(dir, n, None)) == Err(NotSupported)
  {
    hide Print, Live.Content, ChargeTypesOf, Trim;
  }

  lemma UnreadableLimit(a: PptAttr, n: u32, watts: u32, w: World, closing: Closing)
    requires w.alive && w.pc == Idle && w.m == Pressed(a.DirName(), n, None)
    ensures PptServed(w, true, Some(a.Key()), Some(watts), None, closing).1 == Failure(InvalidArgument)
    ensures PptDirect(w.m, Some(a.Key()), Some(watts)).1 == Failure(CustomModeRequired)
  {
    var dir := a.DirName();
    UnreadableProfile(dir, n);
    PressedLimit(dir, n, watts, None);
    PlainLaptop(a, n, None);
    KeyItself(a);
    RefusedEitherWay(w.m, dir, watts);
    hide *;
    PlanOfKey(w.m, a, watts);
    RefusedByDaemon(w, a.Key(), watts, closing);
    ByPlan(w, Some(a.Key()), Some(watts), closing, a.Key(), watts);
    SysfsRefusalExactly(w.m, dir, watts);
  }

  lemma RefusedEitherWay(m: Machine, dir: string, watts: u32)
    requires GetProfile(m) == Err(Parse) && m.gate && LimitRefusal(m, dir, watts) == None
    ensures Failure(FromHw(DaemonRefusal(m))) == Failure(InvalidArgument)
    ensures SysfsRefusal(m, dir, watts) == Some(Busy) && ReportOf(DirectReply(Err(Busy))) == Failure(CustomModeRequired)
  {
    hide GetProfile, LimitRefusal;
  }

  lemma PressedLimit(dir: string, n: u32, watts: u32, to: Shown)
    ensures var m := Pressed(dir, n, to);
            m.gate && LimitRefusal(m, dir, watts) == None && ReadByName(m, dir) == ReadByName(Laptop(dir, n), dir)
  {
    LaptopLimit(dir, n, watts);
    hide ReadByName, Print, Live.Content;
    ReadSame(Laptop(dir, n), Pressed(dir, n, to), {FILE}, dir);
  }

  lemma PlainLaptop(a: PptAttr, n: u32, to: Shown)
    ensures PlainNames(Pressed(a.DirName(), n, to)) && PlainNames(Laptop(a.DirName(), n))
    ensures a.DirName() in Pressed(a.DirName(), n, to).attrDir && a.DirName() in Laptop(a.DirName(), n).attrDir
  {
    PptReparses(a);
    assert Laptop(a.DirName(), n).attrDir[0] == a.DirName();
    hide PptFromKey;
  }

  lemma PlanOfKey(m: Machine, a: PptAttr, watts: u32)
    requires PlainNames(m) && a.DirName() in m.attrDir && LimitRefusal(m, a.DirName(), watts) == None
    ensures PptPlan(ListAll(m), Some(a.Key()), Some(watts)) == Dispatch(a.Key(), watts)
  {
    KeyItself(a);
    hide ListAll, ListedDirs, ReadByName, PptPlan, PlainNames, RecordKey, WriteDir;
    ListingExact(m, a.DirName());
    PptPlanByDirectory(m, a.Key(), watts);
  }

  // ── a limit that brings the dashboard down ────────────────────────────────

  /** The laptop's limit has no `max_value`, so its slider panics. */
  lemma SliderPanics(a: PptAttr, n: u32)
    ensures Slider.FindBounds(ListAll(Laptop(a.DirName(), n)), a.Key()).None?
  {
    LaptopLimit(a.DirName(), n, 0);
    PlainLaptop(a, n, None);
    hide ListAll, ReadByName, PlainNames, Slider.FindBounds;
    Slider.SliderPanicsExactly(Laptop(a.DirName(), n), a);
  }

  // ── a charge type the toolkit does not know ───────────────────────────────

  const TYPES: seq<string> := ["[Standard]", "Fast", "Turbo"]

  function TurboLaptop(dir: string, n: u32): Machine {
    Laptop(dir, n).(files := Laptop(dir, n).files[ChargeTypes := JoinLine(TYPES)])
  }

  lemma TypesSplit()
    ensures SplitSpace(JoinLine(TYPES)) == TYPES
  {
    assert forall i | 0 <= i < |TYPES| :: IsWord(TYPES[i]);
    hide IsWord;
    SplitJoinLine(TYPES);
  }

  lemma TurboUnknown()
    ensures !Known("Turbo")
  {
    forall m ensures !TokenNames("Turbo", m) {
      assert |Lower(Inner("Turbo"))| == 5;
      assert |m.Folded()| != 5;
    }
  }

  lemma TypesSelectable()
    ensures Selectable(JoinLine(TYPES), Fast.AsSysfs()) && ChargeTypesOf(JoinLine(TYPES)).Err?
  {
    TypesSplit();
    TurboUnknown();
    assert Inner(TYPES[1]) == Fast.AsSysfs();
    assert Inner(TYPES[0]) == "Standard";
    assert forall i | 0 <= i < |TYPES| :: Clean(TYPES[i]);
    assert !AllKnown(TYPES) by { assert !Known(TYPES[2]); }
    hide JoinLine, SplitSpace, Clean, Inner, Known, AllKnown, ChargeTypesOf;
    ChargeTypesExact(JoinLine(TYPES));
  }

  /** Fast is accepted, and still no mode can be read. */
  lemma SetButUnreadable(dir: string, n: u32)
    ensures SetModeOutcome(TurboLaptop(dir, n), Fast).Ok? && !ListReadable(TurboLaptop(dir, n))
    ensures GetMode(AfterSetMode(TurboLaptop(dir, n), Fast)) != Ok(Fast)
  {
    TypesSelectable();
    TrimParses(JoinLine(TYPES));
    hide JoinLine, Selectable, ChargeTypesOf, Print, MoveBracket, GetMode, Trim;
    SetThenGetMode(TurboLaptop(dir, n), Fast);
  }

  // ── a directory named like a key ──────────────────────────────────────────

  /** On a laptop with its limit in such a directory the command line's two paths report different
      errors for one and the same command. */
  lemma PathsDiffer(a: PptAttr, n: u32, watts: u32, w: World, closing: Closing)
    requires w.alive && w.pc == Idle && w.m == Laptop(a.Key(), n)
    ensures PptServed(w, true, Some(a.Key()), Some(watts), None, closing).1 == Failure(CustomModeRequired)
    ensures PptDirect(w.m, Some(a.Key()), Some(watts)) == (w.m, Failure(Unsupported))
  {
    assert w.m.gate && w.m.attrDir[0] == a.Key();
    assert |a.Key()| != |a.DirName()|;
    assert CurrentValue(a.DirName()) !in w.m.files;
    LaptopProfile(a.Key(), n);
    LaptopLimit(a.Key(), n, watts);
    hide Laptop, ReadByName, GetProfile, PptServed, PptDirect;
    ShortKeyDirectory(w, a, watts, closing);
  }

  // ── changes lost ──────────────────────────────────────────────────────────

  /** The daemon as its watcher is opened, with clients that have read the profile. */
  function Watched(dir: string, n: u32): Live.System {
    Live.System(Started(dir, n), FILE, false, None, Some(Balanced), false, false, false)
  }

  lemma WatchedQuiet(dir: string, n: u32)
    ensures Live.Quiet(Watched(dir, n)) && Live.UpToDate(Watched(dir, n)) && Live.TakesAll(Watched(dir, n).w.m, FILE)
    ensures Live.Abs(Watched(dir, n)) == Net(Some(Balanced), false, None, Some(Balanced), false, false)
  {
    StartedBlank(dir, n);
    LaptopProfile(dir, n);
    hide Started, Device, GetProfile, Reading, Print;
    Live.SameReading(Watched(dir, n));
  }

  /** An event without a change lets the watcher make its first report. */
  const FIRST: seq<Act> := [Change(Some(Balanced)), Wake(true)] + ([Emit(true)] + [])

  lemma FirstReport(s: Net)
    requires s == Net(Some(Balanced), false, None, Some(Balanced), false, false)
    ensures AtRest(After(s, FIRST), Balanced)
    ensures DirectEmit !in FIRST
  {
    var s1 := Net(Some(Balanced), false, Some(Balanced), Some(Balanced), true, false);
    Peel2(ReadsWork, s, Change(Some(Balanced)), Wake(true), [Emit(true)] + []);
    Peel(ReadsWork, s1, Emit(true), []);
  }

  /** Moves of daemon, firmware and watcher that lose a change. Quiet reaches clients late and Extreme in
      its place, or Quiet is signalled by a setter and gone again, or the one read of Quiet fails. */
  function LosingRun(dir: string, n: u32, which: Rule): seq<Live.Move> {
    Live.AllMoves(Settled(dir, n), Live.Losing(Balanced, Quiet, Extreme, which))
  }

  function Settled(dir: string, n: u32): Live.System {
    Live.Played(Watched(dir, n), Live.AllMoves(Watched(dir, n), FIRST))
  }

  lemma SettledQuiet(dir: string, n: u32)
    ensures Live.Quiet(Settled(dir, n)) && AtRest(Live.Abs(Settled(dir, n)), Balanced)
    ensures Live.TakesAll(Settled(dir, n).w.m, Settled(dir, n).file)
    ensures Live.Steady(Watched(dir, n), Live.AllMoves(Watched(dir, n), FIRST))
  {
    var s, moves := Watched(dir, n), Live.AllMoves(Watched(dir, n), FIRST);
    assert Settled(dir, n) == Live.Played(s, moves) && s.file == FILE;
    hide *;
    WatchedQuiet(dir, n);
    FirstReport(Live.Abs(s));
    Live.TellableWithout(Live.Abs(s), FIRST);
    Live.Realises(s, FIRST);
    Live.SameFile(s, moves);
    Live.SameRefusals(s.w.m, Live.Played(s, moves).w.m, FILE);
  }

  /** Started on this laptop, the system has runs in which everything attached works and yet clients end
      up with another profile than the hardware's, with nothing on its way. */
  lemma ChangesLost(dir: string, n: u32, which: Rule)
    ensures var moves := Live.AllMoves(Watched(dir, n), FIRST) + LosingRun(dir, n, which);
            Live.Steady(Watched(dir, n), moves) && !Live.UpToDate(Live.Played(Watched(dir, n), moves))
  {
    SettledQuiet(dir, n);
    Live.SystemLoses(Settled(dir, n), Balanced, Quiet, Extreme, which);
    hide *;
    Live.SteadyThen(Watched(dir, n), Live.AllMoves(Watched(dir, n), FIRST), LosingRun(dir, n, which));
  }

  // ── a handler loaded later ────────────────────────────────────────────────

  /** The laptop once a gamezone handler `g` has loaded. */
  function Plugged(dir: string, n: u32, g: string): Machine {
    Laptop(dir, n).(profileDir := [HANDLER, g],
                    files := Laptop(dir, n).files[ProfileAttr(g, "name") := GAMEZONE + "\n"]
                                                 [ProfileAttr(g, "profile") := Balanced.AsSysfs() + "\n"])
  }

  lemma NamedGamezone(m: Machine, e: string)
    ensures ProfileAttr(e, "name") !in m.files ==> !IsGamezone(m, e)
    ensures ProfileAttr(e, "name") in m.files && m.files[ProfileAttr(e, "name")] == GAMEZONE + "\n" ==> IsGamezone(m, e)
  {
    PlainName(GAMEZONE);
    hide Trim;
  }

  lemma PluggedFiles(dir: string, n: u32, g: string)
    requires g != HANDLER
    ensures var m := Plugged(dir, n, g);
            && m.profileDir == [HANDLER, g] && ProfileAttr(HANDLER, "name") !in m.files
            && ProfileAttr(g, "profile") in m.files && ProfileAttr(g, "profile") != FILE
            && ProfileAttr(g, "name") in m.files && m.files[ProfileAttr(g, "name")] == GAMEZONE + "\n"
    ensures Reading(Plugged(dir, n, g), FILE) == Reading(Laptop(dir, n), FILE)
  {
    hide Trim, Print, ProfileFromSysfs;
  }

  /** The new handler is the device, whatever it is called. */
  lemma OneGamezone(m: Machine, d: string, g: string)
    requires m.profileDir == [d, g] && IsGamezone(m, g) && !IsGamezone(m, d)
    ensures ProfileFile(m) == Some(ProfileAttr(g, "profile"))
  {
    hide IsGamezone, Device, Listing.Leq;
    assert m.profileDir[1] == g;
    Listing.LeqRefl(g);
    assert IsLeastChoice(m, g);
    DeviceIsLeast(m, g);
  }

  /** The watcher stays on the first handler's file. Fn+Q then changes the selected handler's profile, no
      event has to come, and clients are never told. */
  lemma PluggedLoses(dir: string, n: u32, g: string)
    requires g != HANDLER
    ensures var plugged, selected := Plugged(dir, n, g), ProfileAttr(g, "profile");
            var plug := Live.Daemon(Environment(plugged), false);
            var press := Live.Daemon(Environment(Live.FnQ(plugged, selected, Some(Quiet))), false);
            var s := Watched(dir, n);
            && Live.Notified(s, plug) && Live.Notified(Live.Do(s, plug), press)
            && !Live.UpToDate(Live.Do(Live.Do(s, plug), press))
  {
    StartedBlank(dir, n);
    PressedStep(Started(dir, n), Plugged(dir, n, g));
    hide Started, Laptop, Plugged, Reading, ProfileFile, Step, Live.FnQ, Live.UpToDate, Live.ProfileProperty, IsGamezone;
    PluggedFiles(dir, n, g);
    NamedGamezone(Plugged(dir, n, g), HANDLER);
    NamedGamezone(Plugged(dir, n, g), g);
    OneGamezone(Plugged(dir, n, g), HANDLER, g);
    Live.DetachedLoses(Live.Do(Watched(dir, n), Live.Daemon(Environment(Plugged(dir, n, g)), false)),
                       ProfileAttr(g, "profile"), Quiet);
  }
}
