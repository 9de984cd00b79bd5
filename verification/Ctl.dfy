/** `legion-ctl`: each command through the daemon when there is one, straight to sysfs otherwise. */
module Ctl {
  import opened Wrappers
  import opened Text
  import opened Names
  import opened Sysfs
  import opened Discovery
  import opened Battery
  import opened Attrs
  import opened Kernel
  import opened Hardware
  import opened Protocol
  import D = Daemon

  /** How a command ends, without the wording. */
  datatype Report =
    | NoLimits
    | Listed(all: seq<AttrInfo>)
    | Shown(info: AttrInfo)
    | Unknown
    | OutOfRange(info: AttrInfo)
    | Name(current: string)
    | Done
    | Failure(error: DaemonError)

  function ReportOf(r: Reply): Report {
    match r case Ok(_) => Done case Err(e) => Failure(e)
  }

  /** What a sysfs error tells the user is what the daemon's name for it tells them. */
  function DirectReply(o: Outcome): Reply {
    match o case Ok(_) => Ok(()) case Err(e) => Err(FromHw(e))
  }

  /** What `ppt` makes of a listing before it touches anything. */
  datatype Plan = Answer(report: Report) | Dispatch(key: string, watts: u32)

  function PptPlan(all: seq<AttrInfo>, attr: Option<string>, watts: Option<u32>): Plan {
    if all == [] then Answer(NoLimits)
    else
      match attr
      case None => Answer(Listed(all))
      case Some(name) =>
        match FindAttr(all, RecordKey(name))
        case None => Answer(Unknown)
        case Some(info) =>
          match watts
          case None => Answer(Shown(info))
          case Some(n) => if info.InRange(n) then Dispatch(info.key, n) else Answer(OutOfRange(info))
  }

  function PptDirect(m: Machine, attr: Option<string>, watts: Option<u32>): (Machine, Report) {
    match PptPlan(ListAll(m), attr, watts)
    case Answer(r) => (m, r)
    case Dispatch(key, n) =>
      (AfterWriteLimit(m, WriteDir(key), n), ReportOf(DirectReply(WriteLimitOutcome(m, WriteDir(key), n))))
  }

  /** The report on a request the daemon has answered. */
  function Told(w: World): Report {
    match w.reply case Some(r) => ReportOf(r) case None => Failure(Failed)
  }

  function PptServed(w: World, authorized: bool, attr: Option<string>, watts: Option<u32>,
                     race: Option<Machine>, closing: Closing): (World, Report) {
    match PptPlan(ListAll(w.m), attr, watts)
    case Answer(r) => (w, r)
    case Dispatch(key, n) =>
      var w' := Served(w, authorized, SetPpt(key, n), race, closing);
      (w', Told(w'))
  }

  function ProfileDirect(m: Machine, value: Option<string>): (Machine, Report) {
    match value
    case None => (m, match GetProfile(m) case Ok(p) => Name(p.AsSysfs()) case Err(e) => Failure(FromHw(e)))
    case Some(v) =>
      match ProfileFromUser(v)
      case None => (m, Failure(InvalidArgument))
      case Some(p) => (AfterSetProfile(m, p), ReportOf(DirectReply(SetProfileOutcome(m, p))))
  }

  /** The daemon's `Profile` property turns a read error into an empty string. */
  function ProfileServed(w: World, authorized: bool, value: Option<string>,
                         race: Option<Machine>, closing: Closing): (World, Report) {
    match value
    case None => (w, Name(match GetProfile(w.m) case Ok(p) => p.AsSysfs() case Err(_) => ""))
    case Some(v) =>
      match ProfileFromUser(v)
      case None => (w, Failure(InvalidArgument))
      case Some(p) =>
        var w' := Served(w, authorized, SetProfile(p.AsSysfs()), race, closing);
        (w', Told(w'))
  }

  function BatteryDirect(m: Machine, value: Option<string>): (Machine, Report) {
    match value
    case None => (m, match GetMode(m) case Ok(c) => Name(c.AsSysfs()) case Err(e) => Failure(FromHw(e)))
    case Some(v) =>
      match ChargeFromUser(v)
      case None => (m, Failure(InvalidArgument))
      case Some(c) => (AfterSetMode(m, c), ReportOf(DirectReply(SetModeOutcome(m, c))))
  }

  function BatteryServed(w: World, authorized: bool, value: Option<string>,
                         race: Option<Machine>, closing: Closing): (World, Report) {
    match value
    case None => (w, Name(match GetMode(w.m) case Ok(c) => c.AsSysfs() case Err(_) => ""))
    case Some(v) =>
      match ChargeFromUser(v)
      case None => (w, Failure(InvalidArgument))
      case Some(c) =>
        var w' := Served(w, authorized, SetBatteryMode(c.AsSysfs()), race, closing);
        (w', Told(w'))
  }

  // ── the commands ──────────────────────────────────────────────────────────

  datatype Backend = ViaDaemon(daemon: D.Daemon) | Direct(root: SysRoot)
  {
    function Objects(): set<object> {
      match this
      case ViaDaemon(d) => {d, d.root, d.file}
      case Direct(root) => {root}
    }
  }

  method PptCommand(b: Backend, authorized: bool, attr: Option<string>, watts: Option<u32>,
             race: Option<Machine>, closing: Closing) returns (report: Report)
    modifies b.Objects()
    ensures b.ViaDaemon? ==>
              (b.daemon.Now(), report) == PptServed(old(b.daemon.Now()), authorized, attr, watts, race, closing)
    ensures b.Direct? ==> (b.root.m, report) == PptDirect(old(b.root.m), attr, watts)
  {
    hide Served, ListAll, RecordKey, WriteDir, WriteLimitOutcome, AfterWriteLimit, FindAttr;
    var all := match b case ViaDaemon(d) => ListAll(d.root.m) case Direct(root) => ListAll(root.m);
    if all == [] {
      return NoLimits;
    }
    if attr == None {
      return Listed(all);
    }
    var found := FindAttr(all, RecordKey(attr.value));
    if found == None {
      return Unknown;
    }
    var info := found.value;
    if watts == None {
      return Shown(info);
    }
    if !info.InRange(watts.value) {
      return OutOfRange(info);
    }
    match b {
      case ViaDaemon(d) =>
        var r := d.SetPpt(authorized, info.key, watts.value, race, closing);
        report := ReportOf(r);
      case Direct(root) =>
        var o := WriteByName(root, WriteDir(info.key), watts.value);
        report := ReportOf(DirectReply(o));
    }
  }

  method ProfileCommand(b: Backend, authorized: bool, value: Option<string>,
                 race: Option<Machine>, closing: Closing) returns (report: Report)
    modifies b.Objects()
    ensures b.ViaDaemon? ==>
              (b.daemon.Now(), report) == ProfileServed(old(b.daemon.Now()), authorized, value, race, closing)
    ensures b.Direct? ==> (b.root.m, report) == ProfileDirect(old(b.root.m), value)
  {
    hide Served, GetProfile, ProfileFromUser, AfterSetProfile, SetProfileOutcome;
    if value == None {
      match b {
        case ViaDaemon(d) =>
          return Name(match GetProfile(d.root.m) case Ok(p) => p.AsSysfs() case Err(_) => "");
        case Direct(root) =>
          return match GetProfile(root.m) case Ok(p) => Name(p.AsSysfs()) case Err(e) => Failure(FromHw(e));
      }
    }
    var parsed := ProfileFromUser(value.value);
    if parsed == None {
      return Failure(InvalidArgument);
    }
    match b {
      case ViaDaemon(d) =>
        var r := d.SetProfile(authorized, parsed.value.AsSysfs(), race, closing);
        report := ReportOf(r);
      case Direct(root) =>
        var o := WriteProfile(root, parsed.value);
        report := ReportOf(DirectReply(o));
    }
  }

  method BatteryCommand(b: Backend, authorized: bool, value: Option<string>,
                 race: Option<Machine>, closing: Closing) returns (report: Report)
    modifies b.Objects()
    ensures b.ViaDaemon? ==>
              (b.daemon.Now(), report) == BatteryServed(old(b.daemon.Now()), authorized, value, race, closing)
    ensures b.Direct? ==> (b.root.m, report) == BatteryDirect(old(b.root.m), value)
  {
    hide Served, GetMode, ChargeFromUser, AfterSetMode, SetModeOutcome;
    if value == None {
      match b {
        case ViaDaemon(d) =>
          return Name(match GetMode(d.root.m) case Ok(c) => c.AsSysfs() case Err(_) => "");
        case Direct(root) =>
          return match GetMode(root.m) case Ok(c) => Name(c.AsSysfs()) case Err(e) => Failure(FromHw(e));
      }
    }
    var parsed := ChargeFromUser(value.value);
    if parsed == None {
      return Failure(InvalidArgument);
    }
    match b {
      case ViaDaemon(d) =>
        var r := d.SetBatteryMode(authorized, parsed.value.AsSysfs(), race, closing);
        report := ReportOf(r);
      case Direct(root) =>
        var o := WriteMode(root, parsed.value);
        report := ReportOf(DirectReply(o));
    }
  }

  // ── when the two paths agree ──────────────────────────────────────────────

  /** Same sysfs, same report. */
  predicate Agree(served: (World, Report), direct: (Machine, Report)) {
    served.0.m == direct.0 && served.1 == direct.1
  }

  lemma GetProfileKinds(m: Machine)
    ensures GetProfile(m).Err? ==> GetProfile(m).error in {NotSupported, Parse}
  {
    hide Device, ProfileFromSysfs, Trim;
  }

  /** One dispatched limit, by both paths. */
  predicate SameSetting(w: World, key: string, watts: u32, closing: Closing) {
    var w', dir := Served(w, true, SetPpt(key, watts), None, closing), WriteDir(key);
    w'.m == AfterWriteLimit(w.m, dir, watts) && Told(w') == ReportOf(DirectReply(WriteLimitOutcome(w.m, dir, watts)))
  }

  lemma AgreeInCustom(w: World, key: string, watts: u32, closing: Closing)
    requires w.alive && w.pc == Idle && CustomSelected(w.m)
    ensures SameSetting(w, key, watts, closing)
  {
    hide Served, WriteLimitOutcome, AfterWriteLimit, WriteDir, RecordKey, CustomSelected;
    SetPptServed(w, true, key, watts, None, closing);
    WriteThenRead(w.m, WriteDir(key), watts);
  }

  /** Outside Custom: why the daemon turns a limit away, before looking at it, and why sysfs does, if it
      does: its own checks, then the gate, then a refusal of the kernel's. */
  function DaemonRefusal(m: Machine): HwError {
    match GetProfile(m) case Ok(_) => Busy case Err(e) => e
  }

  function SysfsRefusal(m: Machine, dir: string, watts: u32): Option<HwError> {
    var refused := (CurrentValue(dir), Print(watts));
    if LimitRefusal(m, dir, watts).Some? then LimitRefusal(m, dir, watts)
    else if m.gate then Some(Busy)
    else if refused in m.refuse then Some(m.refuse[refused])
    else None
  }

  lemma SysfsRefusalExactly(m: Machine, dir: string, watts: u32)
    requires !CustomSelected(m)
    ensures WriteLimitOutcome(m, dir, watts) == match SysfsRefusal(m, dir, watts) case Some(e) => Err(e) case None => Ok(())
  {
    hide ReadU32, ReadU32Or, ReadOpt, ListKey, Print, CustomSelected;
  }

  lemma SameAnswer(d: HwError, o: Outcome)
    ensures Failure(FromHw(d)) == ReportOf(DirectReply(o)) <==> o == Err(d)
  {
  }

  lemma RefusedByDaemon(w: World, key: string, watts: u32, closing: Closing)
    requires w.alive && w.pc == Idle && !CustomSelected(w.m)
    ensures Served(w, true, SetPpt(key, watts), None, closing).m == w.m
    ensures Told(Served(w, true, SetPpt(key, watts), None, closing)) == Failure(FromHw(DaemonRefusal(w.m)))
  {
    hide Served, GetProfile, RecordKey, WriteDir;
    ServedRejected(w, true, SetPpt(key, watts), None, closing);
  }

  lemma AgreeElsewhere(w: World, key: string, watts: u32, closing: Closing)
    requires w.alive && w.pc == Idle && !CustomSelected(w.m)
    ensures SameSetting(w, key, watts, closing) <==> SysfsRefusal(w.m, WriteDir(key), watts) == Some(DaemonRefusal(w.m))
  {
    hide *;
    var dir := WriteDir(key);
    RefusedByDaemon(w, key, watts, closing);
    SysfsRefusalExactly(w.m, dir, watts);
    SameAnswer(DaemonRefusal(w.m), WriteLimitOutcome(w.m, dir, watts));
    WriteThenRead(w.m, dir, watts);
    SameSettingIs(w, key, watts, closing);
  }

  lemma SameSettingIs(w: World, key: string, watts: u32, closing: Closing)
    ensures var w', dir := Served(w, true, SetPpt(key, watts), None, closing), WriteDir(key);
            SameSetting(w, key, watts, closing) <==>
              && w'.m == AfterWriteLimit(w.m, dir, watts)
              && Told(w') == ReportOf(DirectReply(WriteLimitOutcome(w.m, dir, watts)))
  {
    hide Served, AfterWriteLimit, WriteLimitOutcome, WriteDir, Told, ReportOf, DirectReply;
  }

  /** The two `ppt` paths agree exactly when nothing is dispatched, Custom is active, or sysfs turns the
      limit away for the daemon's own reason. */
  lemma PptPathsExactly(w: World, attr: Option<string>, watts: Option<u32>, closing: Closing)
    requires w.alive && w.pc == Idle
    ensures var plan := PptPlan(ListAll(w.m), attr, watts);
            Agree(PptServed(w, true, attr, watts, None, closing), PptDirect(w.m, attr, watts)) <==>
              || plan.Answer?
              || CustomSelected(w.m)
              || SysfsRefusal(w.m, WriteDir(plan.key), plan.watts) == Some(DaemonRefusal(w.m))
  {
    hide PptPlan, ListAll, Served, SysfsRefusal, DaemonRefusal, AfterWriteLimit, WriteLimitOutcome, WriteDir, GetProfile;
    var plan := PptPlan(ListAll(w.m), attr, watts);
    if plan.Dispatch? {
      if CustomSelected(w.m) { AgreeInCustom(w, plan.key, plan.watts, closing); }
      else { AgreeElsewhere(w, plan.key, plan.watts, closing); }
    }
  }

  /** With plain directory names what is dispatched is what its own directory accepts. */
  lemma DispatchedInRange(m: Machine, attr: string, watts: u32)
    requires PlainNames(m) && PptPlan(ListAll(m), Some(attr), Some(watts)).Dispatch?
    ensures var plan := PptPlan(ListAll(m), Some(attr), Some(watts));
            && plan.watts == watts
            && WriteDir(plan.key) == WriteDir(attr) && WriteDir(attr) in m.attrDir
            && LimitRefusal(m, WriteDir(attr), watts) == None
  {
    hide ListAll, FindAttr, ReadByName, RecordKey, WriteDir, ListKey, PlainNames;
    var d := FoundAttr(m, RecordKey(attr));
    PlainKeys(m, d);
    DoubleNormalisation(attr);
    ReadKey(m, d);
  }

  /** What the user gets, in terms of directories: the limit meant is the one whose directory the name
      stands for; it is unknown exactly if that directory is not a readable attribute. */
  lemma PptPlanByDirectory(m: Machine, attr: string, watts: u32)
    requires PlainNames(m)
    ensures var dir := WriteDir(attr);
            PptPlan(ListAll(m), Some(attr), Some(watts)) ==
            if ListedDirs(m) == [] then Answer(NoLimits)
            else if dir !in ListedDirs(m) then Answer(Unknown)
            else match ReadByName(m, dir)
                 case Err(_) => Answer(Unknown)
                 case Ok(info) =>
                   if info.InRange(watts) then Dispatch(RecordKey(attr), watts) else Answer(OutOfRange(info))
  {
    hide ListAll, ListedDirs, FindAttr, ReadByName, RecordKey, WriteDir, ListKey, PlainNames;
    var dir, found := WriteDir(attr), FindAttr(ListAll(m), RecordKey(attr));
    ListingExact(m, dir);
    if found.Some? {
      var d := FoundAttr(m, RecordKey(attr));
      PlainKeys(m, d);
      DoubleNormalisation(attr);
      ReadKey(m, d);
    }
    if dir in ListedDirs(m) {
      KeyOfDirectory(m, attr);
      FindListed(m, dir);
      ReadKey(m, dir);
    }
  }

  lemma KeyOfDirectory(m: Machine, attr: string)
    requires PlainNames(m) && WriteDir(attr) in m.attrDir
    ensures ListKey(WriteDir(attr)) == RecordKey(attr)
  {
    match PptFromKey(attr) {
      case Some(a) => PptDirExact(WriteDir(attr), a);
      case None => PlainKeys(m, attr);
    }
  }

  /** So for every attribute spelling and every value: under the gate the paths agree unless a limit is
      dispatched while the profile cannot be read, and even then they leave the same sysfs. Without
      the gate a limit dispatched outside Custom is refused by the daemon, and by sysfs only if
      the kernel refuses that very value; with the same error if it is the daemon's. */
  lemma PptPathsAgree(w: World, attr: Option<string>, watts: Option<u32>, closing: Closing)
    requires w.alive && w.pc == Idle && PlainNames(w.m)
    ensures var plan := PptPlan(ListAll(w.m), attr, watts);
            var agree := Agree(PptServed(w, true, attr, watts, None, closing), PptDirect(w.m, attr, watts));
            if plan.Answer? || CustomSelected(w.m) then agree
            else if w.m.gate then
              && (agree <==> GetProfile(w.m).Ok?)
              && PptServed(w, true, attr, watts, None, closing).0.m == PptDirect(w.m, attr, watts).0
            else agree <==> var refused := (CurrentValue(WriteDir(plan.key)), Print(plan.watts));
                            refused in w.m.refuse && w.m.refuse[refused] == DaemonRefusal(w.m)
  {
    hide ListAll, Served, AfterWriteLimit, WriteLimitOutcome, WriteDir, GetProfile, FindAttr, RecordKey, PlainNames,
         LimitRefusal, PptServed, PptDirect, Print, Agree;
    var plan := PptPlan(ListAll(w.m), attr, watts);
    PptPathsExactly(w, attr, watts, closing);
    if plan.Dispatch? && !CustomSelected(w.m) {
      DispatchedInRange(w.m, attr.value, watts.value);
      GetProfileKinds(w.m);
      if w.m.gate { SameSysfs(w, attr, watts, closing); }
    }
  }

  lemma SameSysfs(w: World, attr: Option<string>, watts: Option<u32>, closing: Closing)
    requires w.alive && w.pc == Idle && w.m.gate && !CustomSelected(w.m)
    requires PptPlan(ListAll(w.m), attr, watts).Dispatch?
    ensures PptServed(w, true, attr, watts, None, closing).0.m == w.m == PptDirect(w.m, attr, watts).0
  {
    var plan := PptPlan(ListAll(w.m), attr, watts);
    hide *;
    RefusedByDaemon(w, plan.key, plan.watts, closing);
    WriteThenRead(w.m, WriteDir(plan.key), plan.watts);
    ByPlan(w, attr, watts, closing, plan.key, plan.watts);
  }

  /** Plain names are needed: a readable directory named like a short key, next to no directory for
      that limit, makes the daemon ask for Custom where the direct path finds nothing to write. */
  lemma ShortKeyDirectory(w: World, a: PptAttr, watts: u32, closing: Closing)
    requires w.alive && w.pc == Idle && w.m.gate && GetProfile(w.m).Ok? && !CustomSelected(w.m)
    requires a.Key() in w.m.attrDir && CurrentValue(a.DirName()) !in w.m.files
    requires ReadByName(w.m, a.Key()).Ok? && ReadByName(w.m, a.Key()).value.InRange(watts)
    ensures PptServed(w, true, Some(a.Key()), Some(watts), None, closing).1 == Failure(CustomModeRequired)
    ensures PptDirect(w.m, Some(a.Key()), Some(watts)) == (w.m, Failure(Unsupported))
  {
    assert WriteDir(a.Key()) == a.DirName() by { PptReparses(a); }
    ShortKeyDispatched(w.m, a, watts);
    MissingLimit(w.m, a.DirName(), watts);
    hide *;
    RefusedElsewhere(w, a.Key(), watts, closing);
    ByPlan(w, Some(a.Key()), Some(watts), closing, a.Key(), watts);
  }

  /** Both paths, once the plan is known. */
  lemma ByPlan(w: World, attr: Option<string>, watts: Option<u32>, closing: Closing, key: string, n: u32)
    requires PptPlan(ListAll(w.m), attr, watts) == Dispatch(key, n)
    ensures PptServed(w, true, attr, watts, None, closing)
            == (Served(w, true, SetPpt(key, n), None, closing), Told(Served(w, true, SetPpt(key, n), None, closing)))
    ensures PptDirect(w.m, attr, watts)
            == (AfterWriteLimit(w.m, WriteDir(key), n), ReportOf(DirectReply(WriteLimitOutcome(w.m, WriteDir(key), n))))
  {
    hide PptPlan, ListAll, Served, AfterWriteLimit, WriteLimitOutcome, WriteDir;
  }

  lemma RefusedElsewhere(w: World, key: string, watts: u32, closing: Closing)
    requires w.alive && w.pc == Idle && GetProfile(w.m).Ok? && !CustomSelected(w.m)
    ensures Told(Served(w, true, SetPpt(key, watts), None, closing)) == Failure(CustomModeRequired)
  {
    hide Served, GetProfile, RecordKey, WriteDir;
    ServedRejected(w, true, SetPpt(key, watts), None, closing);
  }

  lemma MissingLimit(m: Machine, dir: string, watts: u32)
    requires CurrentValue(dir) !in m.files
    ensures AfterWriteLimit(m, dir, watts) == m
    ensures ReportOf(DirectReply(WriteLimitOutcome(m, dir, watts))) == Failure(Unsupported)
  {
  }

  lemma ShortKeyDispatched(m: Machine, a: PptAttr, watts: u32)
    requires a.Key() in m.attrDir && CurrentValue(a.DirName()) !in m.files
    requires ReadByName(m, a.Key()).Ok? && ReadByName(m, a.Key()).value.InRange(watts)
    ensures PptPlan(ListAll(m), Some(a.Key()), Some(watts)) == Dispatch(a.Key(), watts)
  {
    PptReparses(a);
    ShortKeyListed(m, a);
    var d := FoundAttr(m, a.Key());
    ReadKey(m, d);
    if d != a.Key() {
      PptDirExact(d, a);
      match PptFromDir(d) { case Some(b) => PptSpellingsDisjoint(a, b, a.Key()); case None => }
    }
  }

  lemma ShortKeyListed(m: Machine, a: PptAttr)
    requires a.Key() in m.attrDir && ReadByName(m, a.Key()).Ok?
    ensures FindAttr(ListAll(m), a.Key()).Some?
  {
    var all, dirs := ListAll(m), ListedDirs(m);
    Listing.SortMembers(m.attrDir, a.Key());
    var i :| 0 <= i < |dirs| && dirs[i] == a.Key();
    ReadKey(m, a.Key());
    match PptFromDir(a.Key()) {
      case Some(b) =>
        PptDirExact(a.Key(), b);
        PptSpellingsDisjoint(a, b, a.Key());
      case None =>
    }
    assert all[i].key == a.Key();
  }

  /** Setting a limit and asking for it again, under any spelling of the same limit, shows the value
      set, and the rest of the entry as before. */
  lemma SetThenShow(m: Machine, attr: string, again: string, watts: u32)
    requires PlainNames(m) && RecordKey(again) == RecordKey(attr)
    requires PptDirect(m, Some(attr), Some(watts)).1 == Done
    ensures var m' := PptDirect(m, Some(attr), Some(watts)).0;
            && FindAttr(ListAll(m), RecordKey(attr)).Some?
            && PptDirect(m', Some(again), None)
               == (m', Shown(FindAttr(ListAll(m), RecordKey(attr)).value.(current := watts)))
  {
    hide ListAll, LimitRefusal, WriteLimitOutcome, AfterWriteLimit, WriteDir, FindAttr, RecordKey, PlainNames, ReadByName;
    DispatchedInRange(m, attr, watts);
    SetThenFind(m, attr, watts);
    NonEmptyFound(ListAll(AfterWriteLimit(m, WriteDir(attr), watts)), RecordKey(attr));
  }

  /** And through the daemon, with or without rights to set anything else, the same. */
  lemma SetThenShowServed(w: World, attr: string, again: string, watts: u32, closing: Closing,
                          authorized: bool, closing': Closing)
    requires w.alive && w.pc == Idle && PlainNames(w.m) && RecordKey(again) == RecordKey(attr)
    requires PptServed(w, true, Some(attr), Some(watts), None, closing).1 == Done
    ensures var w' := PptServed(w, true, Some(attr), Some(watts), None, closing).0;
            && FindAttr(ListAll(w.m), RecordKey(attr)).Some?
            && PptServed(w', authorized, Some(again), None, None, closing')
               == (w', Shown(FindAttr(ListAll(w.m), RecordKey(attr)).value.(current := watts)))
  {
    hide ListAll, Served, WriteLimitOutcome, AfterWriteLimit, WriteDir, FindAttr, RecordKey, PlainNames, CustomSelected, FromHw;
    var plan := PptPlan(ListAll(w.m), Some(attr), Some(watts));
    DispatchedInRange(w.m, attr, watts);
    SetPptServed(w, true, plan.key, watts, None, closing);
    DirectByKey(w.m, attr, watts);
    SetThenShow(w.m, attr, again, watts);
  }

  /** What is dispatched directly under the key found is what is dispatched under the name given. */
  lemma DirectByKey(m: Machine, attr: string, watts: u32)
    requires PlainNames(m) && PptPlan(ListAll(m), Some(attr), Some(watts)).Dispatch?
    ensures PptDirect(m, Some(attr), Some(watts))
            == (AfterWriteLimit(m, WriteDir(attr), watts), ReportOf(DirectReply(WriteLimitOutcome(m, WriteDir(attr), watts))))
  {
    hide PptPlan, ListAll, AfterWriteLimit, WriteLimitOutcome, WriteDir, PlainNames, ReportOf, DirectReply;
    DispatchedInRange(m, attr, watts);
  }

  lemma NonEmptyFound(all: seq<AttrInfo>, key: string)
    requires FindAttr(all, key).Some?
    ensures all != []
  {
  }

  /** Asked for no limit in particular, either path lists every readable one, in order, or says there is none. */
  lemma ListsEverything(w: World, authorized: bool, watts: Option<u32>, race: Option<Machine>, closing: Closing)
    ensures var r := PptDirect(w.m, None, watts);
            && r.0 == w.m && PptServed(w, authorized, None, watts, race, closing) == (w, r.1)
            && (r.1 == NoLimits <==> ListedDirs(w.m) == [])
            && (ListedDirs(w.m) != [] ==>
                  && r.1.Listed? && |r.1.all| == |ListedDirs(w.m)|
                  && forall i | 0 <= i < |r.1.all| :: ReadByName(w.m, ListedDirs(w.m)[i]) == Ok(r.1.all[i]))
  {
    hide ListedDirs, ReadByName, Served;
    var all := ListAll(w.m);
  }

  /** A name that is none is an invalid argument to both commands, on either path, and goes no further. */
  lemma UnknownNames(w: World, authorized: bool, v: string, race: Option<Machine>, closing: Closing)
    ensures ProfileFromUser(v).None? ==>
              && ProfileDirect(w.m, Some(v)) == (w.m, Failure(InvalidArgument))
              && ProfileServed(w, authorized, Some(v), race, closing) == (w, Failure(InvalidArgument))
    ensures ChargeFromUser(v).None? ==>
              && BatteryDirect(w.m, Some(v)) == (w.m, Failure(InvalidArgument))
              && BatteryServed(w, authorized, Some(v), race, closing) == (w, Failure(InvalidArgument))
  {
    hide ProfileFromUser, ChargeFromUser, Served;
  }

  /** A profile that has been set is the one shown next, under the kernel's name for it. */
  lemma SetThenShowProfile(m: Machine, v: string)
    requires ProfileDirect(m, Some(v)).1 == Done
    ensures var m' := ProfileDirect(m, Some(v)).0;
            && ProfileDirect(m', None).0 == m' && ProfileDirect(m', None).1.Name?
            && ProfileFromSysfs(ProfileDirect(m', None).1.current) == ProfileFromUser(v)
  {
    hide ProfileFromUser, AfterSetProfile, SetProfileOutcome, GetProfile, ProfileFromSysfs;
    var p := ProfileFromUser(v).value;
    OneDevice(m, p);
    ProfileReparses(p);
  }

  /** So is a charge mode, as the kernel writes it, if the list of types can be read. */
  lemma SetThenShowBattery(m: Machine, v: string)
    requires BatteryDirect(m, Some(v)).1 == Done && ListReadable(m)
    ensures var m' := BatteryDirect(m, Some(v)).0;
            && BatteryDirect(m', None).0 == m' && BatteryDirect(m', None).1.Name?
            && ChargeFromUser(v).Some? && BatteryDirect(m', None).1.current == ChargeFromUser(v).value.AsSysfs()
  {
    hide ChargeFromUser, AfterSetMode, SetModeOutcome, GetMode, ListReadable;
    SetThenGetMode(m, ChargeFromUser(v).value);
  }

  /** The `profile` paths agree for every argument, parsed twice or once, unless the profile is set but
      the daemon cannot send its signal; shown, they agree exactly when the profile can be read,
      since the daemon shows an unreadable one as empty. */
  lemma ProfilePathsAgree(w: World, value: Option<string>, closing: Closing)
    requires w.alive && w.pc == Idle
    ensures Agree(ProfileServed(w, true, value, None, closing), ProfileDirect(w.m, value)) <==>
              match value
              case None => GetProfile(w.m).Ok?
              case Some(v) => closing.sent || ProfileFromUser(v).None? || SetProfileOutcome(w.m, ProfileFromUser(v).value).Err?
    ensures ProfileServed(w, true, value, None, closing).0.m == ProfileDirect(w.m, value).0
  {
    hide Served, ProfileFromUser, AfterSetProfile, SetProfileOutcome, GetProfile;
    if value.Some? && ProfileFromUser(value.value).Some? {
      var p := ProfileFromUser(value.value).value;
      ProfileReparses(p);
      ServedChecked(w, true, SetProfile(p.AsSysfs()), None, closing, JobProfile(p));
      OneDevice(w.m, p);
    }
  }

  /** And so do the `battery` paths. */
  lemma BatteryPathsAgree(w: World, value: Option<string>, closing: Closing)
    requires w.alive && w.pc == Idle
    ensures Agree(BatteryServed(w, true, value, None, closing), BatteryDirect(w.m, value)) <==>
              match value
              case None => GetMode(w.m).Ok?
              case Some(v) => closing.sent || ChargeFromUser(v).None? || SetModeOutcome(w.m, ChargeFromUser(v).value).Err?
    ensures BatteryServed(w, true, value, None, closing).0.m == BatteryDirect(w.m, value).0
  {
    hide Served, ChargeFromUser, AfterSetMode, SetModeOutcome, GetMode;
    if value.Some? && ChargeFromUser(value.value).Some? {
      var c := ChargeFromUser(value.value).value;
      ChargeReparses(c);
      ServedChecked(w, true, SetBatteryMode(c.AsSysfs()), None, closing, JobMode(c));
      FailedJob(w.m, JobMode(c));
    }
  }
}
