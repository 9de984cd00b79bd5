/** The daemon as a transition system: every setter cut at the points where the firmware can
    act, a save can fail or the process can die. */
module Protocol {
  import opened Wrappers
  import opened Text
  import opened Names
  import opened Sysfs
  import opened Discovery
  import opened Battery
  import opened Attrs
  import opened Kernel
  import opened Hardware
  import opened Store
  import opened Reapply

  datatype DaemonError =
    | CustomModeRequired | Unsupported | NotAuthorized | NotPermitted | InvalidArgument | Failed | BusFailed

  function FromHw(e: HwError): DaemonError {
    match e
    case Busy => CustomModeRequired
    case NotSupported => Unsupported
    case PermissionDenied => NotPermitted
    case Parse => InvalidArgument
    case Io => Failed
  }

  type Reply = Result<(), DaemonError>

  datatype Request = SetProfile(value: string) | SetBatteryMode(value: string) | SetPpt(attr: string, watts: u32)

  /** A request that has passed the checks made before any write. */
  datatype Job = JobProfile(p: PowerProfile) | JobMode(mode: ChargeMode) | JobPpt(key: string, dir: string, watts: u32)

  function Admission(m: Machine, authorized: bool, req: Request): Result<Job, DaemonError> {
    if !authorized then Err(NotAuthorized)
    else
      match req
      case SetProfile(v) =>
        (match ProfileFromUser(v) case Some(p) => Ok(JobProfile(p)) case None => Err(InvalidArgument))
      case SetBatteryMode(v) =>
        (match ChargeFromUser(v) case Some(c) => Ok(JobMode(c)) case None => Err(InvalidArgument))
      case SetPpt(attr, watts) =>
        match GetProfile(m)
        case Err(e) => Err(FromHw(e))
        case Ok(p) => if p == Custom then Ok(JobPpt(RecordKey(attr), WriteDir(attr), watts)) else Err(CustomModeRequired)
  }

  function AfterJob(m: Machine, job: Job): Machine {
    match job
    case JobProfile(p) => AfterSetProfile(m, p)
    case JobMode(mode) => AfterSetMode(m, mode)
    case JobPpt(_, dir, watts) => AfterWriteLimit(m, dir, watts)
  }

  function JobOutcome(m: Machine, job: Job): Outcome {
    match job
    case JobProfile(p) => SetProfileOutcome(m, p)
    case JobMode(mode) => SetModeOutcome(m, mode)
    case JobPpt(_, dir, watts) => WriteLimitOutcome(m, dir, watts)
  }

  function JobRec(job: Job): Rec {
    match job
    case JobProfile(p) => RecProfile(p)
    case JobMode(mode) => RecMode(mode)
    case JobPpt(key, _, watts) => RecPpt(key, watts)
  }

  lemma FailedJob(m: Machine, job: Job)
    ensures JobOutcome(m, job).Err? ==> AfterJob(m, job) == m
  {
    match job
    case JobProfile(p) => OneDevice(m, p);
    case JobMode(mode) => WrittenFrame(m, ChargeTypes, mode.AsSysfs());
    case JobPpt(_, dir, watts) => WriteThenRead(m, dir, watts);
  }

  /** Where in a setter the daemon is. `checked` observes sysfs as it was when the request was admitted. */
  datatype Pc =
    | Idle
    | Admitted(job: Job, checked: Machine)
    | Applied(rec: Rec)
    | Unsaved(rec: Rec)
    | TempWritten(rec: Rec)
    | Signalling(rec: Rec)

  /** Setting a profile or a charge mode ends with a signal to the clients, setting a limit does not. */
  predicate Signals(r: Rec) {
    !r.RecPpt?
  }

  /** A write the kernel accepted, with sysfs at the daemon's checks and at the write. */
  datatype Accepted = Accepted(job: Job, checked: Machine, before: Machine)

  /** Machine, daemon memory and disk. The last four fields only observe: the recordings made
      so far, how many of them the state file holds, whether the latest save succeeded, and
      the hardware writes accepted so far. */
  datatype World = World(
    m: Machine, mem: State, alive: bool, main: DiskFile, tmp: DiskFile, pc: Pc, reply: Option<Reply>,
    hist: seq<Rec>, saved: nat, synced: bool, log: seq<Accepted>)

  datatype Event =
    | Call(authorized: bool, req: Request)
    | HardwareWrite
    | Record
    | WriteTemp(fate: SaveFate)
    | Rename(fate: SaveFate)
    | SendSignal(sent: bool)
    | Environment(after: Machine)   // Fn+Q, forgotten settings, changed refusals, hot-plug
    | Crash(tmp: DiskFile)          // tears the temporary file if it was being written
    | Restart(order: seq<string>)
    | Resume(order: seq<string>)

  /** Saving is over, one way or the other. */
  function SavingOver(w: World, rec: Rec): World {
    if Signals(rec) then w.(pc := Signalling(rec)) else w.(pc := Idle, reply := Some(Ok(())))
  }

  /** What one event does; events that are not enabled do nothing. */
  function Step(w: World, e: Event): World {
    match e
    case Call(authorized, req) =>
      if !w.alive || w.pc != Idle then w
      else (match Admission(w.m, authorized, req)
            case Err(err) => w.(reply := Some(Err(err)))
            case Ok(job) => w.(pc := Admitted(job, w.m), reply := None))
    case HardwareWrite =>
      if !w.pc.Admitted? then w
      else (match JobOutcome(w.m, w.pc.job)
            case Err(err) => w.(pc := Idle, reply := Some(Err(FromHw(err))))
            case Ok(_) => w.(m := AfterJob(w.m, w.pc.job), pc := Applied(JobRec(w.pc.job)),
                             log := w.log + [Accepted(w.pc.job, w.pc.checked, w.m)]))
    case Record =>
      if !w.pc.Applied? then w
      else w.(mem := Recorded(w.mem, w.pc.rec), pc := Unsaved(w.pc.rec), hist := w.hist + [w.pc.rec], synced := false)
    case WriteTemp(fate) =>
      if !w.pc.Unsaved? then w
      else if fate.TempFails? then SavingOver(w.(tmp := fate.tmp), w.pc.rec)
      else w.(tmp := Intact(w.mem), pc := TempWritten(w.pc.rec))
    case Rename(fate) =>
      if !w.pc.TempWritten? then w
      else if fate.Saved? then
        SavingOver(w.(main := w.tmp, tmp := Absent, saved := |w.hist|, synced := true), w.pc.rec)
      else SavingOver(w, w.pc.rec)
    case SendSignal(sent) =>
      if !w.pc.Signalling? then w
      else w.(pc := Idle, reply := Some(if sent then Ok(()) else Err(BusFailed)))
    case Environment(after) => w.(m := after)
    case Crash(tmp) =>
      if !w.alive then w
      else w.(alive := false, pc := Idle, reply := None, tmp := if w.pc.Unsaved? then tmp else w.tmp)
    case Restart(order) =>
      var st := Load(w.main);
      if w.alive || w.saved > |w.hist| || !Enumerates(order, st.ppt) then w
      else w.(m := Reapplied(w.m, st, order), mem := st, alive := true, hist := w.hist[..w.saved], synced := true)
    case Resume(order) =>
      if !w.alive || w.pc != Idle || !Enumerates(order, w.mem.ppt) then w
      else w.(m := Reapplied(w.m, w.mem, order))
  }

  function Run(w: World, events: seq<Event>): World
    decreases |events|
  {
    if events == [] then w else Run(Step(w, events[0]), events[1..])
  }

  lemma {:induction false} RunThen(w: World, es: seq<Event>, fs: seq<Event>)
    ensures Run(w, es + fs) == Run(Run(w, es), fs)
    decreases |es|
  {
    if es == [] {
      assert es + fs == fs;
    } else {
      assert (es + fs)[1..] == es[1..] + fs;
      RunThen(Step(w, es[0]), es[1..], fs);
    }
  }

  /** Before the first start: any sysfs, and whatever is on disk. */
  function Off(m: Machine, main: DiskFile, tmp: DiskFile): World {
    World(m, DEFAULT, false, main, tmp, Idle, None, [], 0, true, [])
  }

  // ── what every step keeps ─────────────────────────────────────────────────

  /** Memory is the replay of all recordings, the state file of the first `saved` of them;
      the file is the one found at first boot or a whole encoding. */
  ghost predicate Durable(w: World, first: DiskFile) {
    && w.saved <= |w.hist|
    && (w.alive ==> w.mem == Replay(Load(first), w.hist))
    && Load(w.main) == Replay(Load(first), w.hist[..w.saved])
    && (w.main.Intact? || (w.main == first && w.saved == 0))
    && (w.pc.TempWritten? ==> w.tmp == Intact(w.mem))
    && (w.synced ==> w.saved == |w.hist|)
    && (!w.alive ==> w.pc == Idle)
  }

  lemma DurableSaving(w: World, e: Event, first: DiskFile)
    requires Durable(w, first) && (e.Record? || e.WriteTemp? || e.Rename?)
    ensures Durable(Step(w, e), first)
  {
    hide Reapplied, Enumerates, Admission, AfterJob, JobOutcome, Recorded, Replay;
    if e.Record? && w.pc.Applied? {
      ReplaySnoc(Load(first), w.hist, w.pc.rec);
      assert (w.hist + [w.pc.rec])[..w.saved] == w.hist[..w.saved];
    }
    assert w.hist[..|w.hist|] == w.hist;
  }

  lemma DurableRestart(w: World, order: seq<string>, first: DiskFile)
    requires Durable(w, first)
    ensures Durable(Step(w, Restart(order)), first)
  {
    hide Reapplied, Enumerates, Admission, AfterJob, JobOutcome, Recorded, Replay;
    assert w.hist[..w.saved][..w.saved] == w.hist[..w.saved];
  }

  lemma DurableStep(w: World, e: Event, first: DiskFile)
    requires Durable(w, first)
    ensures Durable(Step(w, e), first)
  {
    hide Reapplied, Enumerates, Admission, AfterJob, JobOutcome, Recorded, Replay;
    match e {
      case Record => DurableSaving(w, e, first);
      case WriteTemp(_) => DurableSaving(w, e, first);
      case Rename(_) => DurableSaving(w, e, first);
      case Restart(order) => DurableRestart(w, order, first);
      case _ =>
    }
  }

  lemma {:induction false} DurableRun(w: World, events: seq<Event>, first: DiskFile)
    requires Durable(w, first)
    ensures Durable(Run(w, events), first)
    decreases |events|
  {
    if events != [] {
      DurableStep(w, events[0], first);
      DurableRun(Step(w, events[0]), events[1..], first);
    }
  }

  /** Crash safety over whole runs. Whatever calls are made, saves fail, crashes strike between
      any two steps and restarts follow: the state file is never torn unless it was found so,
      it holds the state after a prefix of the recordings, all of them if the latest save
      succeeded; and a running daemon remembers all of them. */
  lemma CrashSafe(m: Machine, first: DiskFile, tmp: DiskFile, events: seq<Event>)
    ensures var w := Run(Off(m, first, tmp), events);
            && (w.main == first || w.main.Intact?)
            && w.saved <= |w.hist|
            && Load(w.main) == Replay(Load(first), w.hist[..w.saved])
            && (w.synced ==> Load(w.main) == Replay(Load(first), w.hist))
            && (w.alive ==> w.mem == Replay(Load(first), w.hist))
  {
    DurableRun(Off(m, first, tmp), events, first);
    var w := Run(Off(m, first, tmp), events);
    if w.synced { assert w.hist[..w.saved] == w.hist; }
  }

  /** The history is exactly that: one event adds the recording in progress, a restart drops what
      was not on disk, and nothing else touches it; the saved part only moves to the whole. */
  lemma HistoryFaithful(w: World, e: Event)
    requires w.saved <= |w.hist|
    ensures var w' := Step(w, e);
            && (w'.hist == w.hist
                || (e == Record && w.pc.Applied? && w'.hist == w.hist + [w.pc.rec])
                || (e.Restart? && w'.hist == w.hist[..w.saved]))
            && (w'.saved == w.saved || (e == Rename(Saved) && w'.saved == |w.hist| && w'.synced))
            && (e.Restart? && !w.alive && w'.alive ==> w'.mem == Load(w.main))
            && (w'.main != w.main ==> w'.main == w.tmp && w.pc.TempWritten?)
  {
  }

  /** One at a time: no call and no resume is taken up while a setter is under way, and a daemon that is
      down does nothing but start. A crash loses memory only, and tears no file but a temporary one that
      was being written. */
  lemma OneAtATime(w: World, e: Event, torn: DiskFile)
    ensures w.pc != Idle && (e.Call? || e.Resume?) ==> Step(w, e) == w
    ensures !w.alive && w.pc == Idle && !e.Restart? && !e.Environment? ==> Step(w, e) == w
    ensures var t := Step(w, Crash(torn));
            && !t.alive && t.m == w.m && t.main == w.main && t.hist == w.hist && t.saved == w.saved
            && (w.alive ==> t.pc == Idle)
            && (t.tmp != w.tmp ==> w.alive && w.pc.Unsaved? && t.tmp == torn)
  {
    hide Reapplied, Admission, AfterJob, JobOutcome, Enumerates;
  }

  // ── only accepted settings are remembered ─────────────────────────────────

  /** The hardware write behind a recording. */
  ghost predicate Backed(r: Rec, log: seq<Accepted>) {
    exists i | 0 <= i < |log| :: JobRec(log[i].job) == r
  }

  /** A limit goes by its canonical key, and was admitted in Custom. */
  predicate SoundJob(job: Job, checked: Machine) {
    job.JobPpt? ==> Canonical(job.key) && job.dir == WriteDir(job.key) && CustomSelected(checked)
  }

  ghost predicate Honest(w: World) {
    && (forall i | 0 <= i < |w.log| :: SoundJob(w.log[i].job, w.log[i].checked) && JobOutcome(w.log[i].before, w.log[i].job).Ok?)
    && (forall i | 0 <= i < |w.hist| :: Backed(w.hist[i], w.log))
    && (w.pc.Applied? ==> Backed(w.pc.rec, w.log))
    && (w.pc.Admitted? ==> SoundJob(w.pc.job, w.pc.checked))
  }

  lemma AdmittedSound(m: Machine, authorized: bool, req: Request)
    ensures Admission(m, authorized, req).Ok? ==> SoundJob(Admission(m, authorized, req).value, m)
  {
    hide RecordKey, WriteDir, Canonical, ProfileFromUser, ChargeFromUser, GetProfile;
    if req.SetPpt? { DoubleNormalisation(req.attr); }
  }

  lemma BackedGrows(r: Rec, log: seq<Accepted>, a: Accepted)
    requires Backed(r, log)
    ensures Backed(r, log + [a])
  {
    var i :| 0 <= i < |log| && JobRec(log[i].job) == r;
    assert (log + [a])[i] == log[i];
  }

  lemma HonestStep(w: World, e: Event)
    requires Honest(w)
    ensures Honest(Step(w, e))
  {
    hide Canonical, WriteDir, CustomSelected, Admission, JobOutcome, AfterJob, Recorded, Reapplied, Enumerates, FromHw;
    match e {
      case Call(authorized, req) =>
        AdmittedSound(w.m, authorized, req);
      case HardwareWrite =>
        if w.pc.Admitted? && JobOutcome(w.m, w.pc.job).Ok? {
          var a := Accepted(w.pc.job, w.pc.checked, w.m);
          assert (w.log + [a])[|w.log|] == a;
          forall i | 0 <= i < |w.hist| ensures Backed(w.hist[i], w.log + [a]) {
            BackedGrows(w.hist[i], w.log, a);
          }
        }
      case _ =>
    }
  }

  lemma {:induction false} HonestRun(w: World, events: seq<Event>)
    requires Honest(w)
    ensures Honest(Run(w, events))
    decreases |events|
  {
    if events != [] {
      HonestStep(w, events[0]);
      HonestRun(Step(w, events[0]), events[1..]);
    }
  }

  lemma RecordedLimit(w: World, key: string, watts: u32)
    requires Honest(w) && RecPpt(key, watts) in w.hist
    ensures Canonical(key)
    ensures exists i | 0 <= i < |w.log| ::
              && w.log[i].job == JobPpt(key, WriteDir(key), watts) && CustomSelected(w.log[i].checked)
              && AcceptedLimit(w.log[i].before, WriteDir(key), watts)
  {
    var k :| 0 <= k < |w.hist| && w.hist[k] == RecPpt(key, watts);
    var i :| 0 <= i < |w.log| && JobRec(w.log[i].job) == w.hist[k];
    AcceptedExactly(w.log[i].before, WriteDir(key), watts);
    assert SoundJob(w.log[i].job, w.log[i].checked);
  }

  /** Every limit the daemon remembers, in memory or on disk, was found there at first boot or was
      accepted at some moment of the run: admitted by the daemon in Custom, then taken by the kernel
      within its bounds and, where the gate is in force, still in Custom. */
  lemma OnlyAcceptedLimits(m: Machine, first: DiskFile, tmp: DiskFile, events: seq<Event>, key: string)
    ensures var w := Run(Off(m, first, tmp), events);
            forall st | (st == w.mem && w.alive) || st == Load(w.main) :: key in st.ppt ==>
              || (key in Load(first).ppt && st.ppt[key] == Load(first).ppt[key])
              || exists i | 0 <= i < |w.log| ::
                   && w.log[i].job == JobPpt(key, WriteDir(key), st.ppt[key]) && CustomSelected(w.log[i].checked)
                   && AcceptedLimit(w.log[i].before, WriteDir(key), st.ppt[key])
  {
    var w0 := Off(m, first, tmp);
    var w := Run(w0, events);
    CrashSafe(m, first, tmp, events);
    HonestRun(w0, events);
    forall st | (st == w.mem && w.alive) || st == Load(w.main)
      ensures key in st.ppt ==>
              || (key in Load(first).ppt && st.ppt[key] == Load(first).ppt[key])
              || exists i | 0 <= i < |w.log| ::
                   && w.log[i].job == JobPpt(key, WriteDir(key), st.ppt[key]) && CustomSelected(w.log[i].checked)
                   && AcceptedLimit(w.log[i].before, WriteDir(key), st.ppt[key])
    {
      if key in st.ppt {
        var recs := if st == w.mem && w.alive then w.hist else w.hist[..w.saved];
        ReplayLimit(Load(first), recs, key);
        if RecPpt(key, st.ppt[key]) in recs { RecordedLimit(w, key, st.ppt[key]); }
      }
    }
  }

  // ── reachable states reapply well ─────────────────────────────────────────

  /** In every reachable state the remembered keys are canonical, in memory and on disk. */
  lemma ReachableCanonical(m: Machine, first: DiskFile, tmp: DiskFile, events: seq<Event>)
    requires CanonicalKeys(Load(first).ppt)
    ensures var w := Run(Off(m, first, tmp), events);
            CanonicalKeys(Load(w.main).ppt) && (w.alive ==> CanonicalKeys(w.mem.ppt))
  {
    var w := Run(Off(m, first, tmp), events);
    CrashSafe(m, first, tmp, events);
    HonestRun(Off(m, first, tmp), events);
    forall r | r in w.hist ensures CanonicalRec(r) {
      if r.RecPpt? { RecordedLimit(w, r.key, r.watts); }
    }
    ReplayCanonical(Load(first), w.hist);
    ReplayCanonical(Load(first), w.hist[..w.saved]);
  }

  lemma ResumeTwice(w: World, o: seq<string>, o': seq<string>)
    requires CanonicalKeys(w.mem.ppt) && Enumerates(o, w.mem.ppt) && Enumerates(o', w.mem.ppt)
    ensures Step(w, Resume(o)) == Step(w, Resume(o'))
    ensures Step(Step(w, Resume(o)), Resume(o')) == Step(w, Resume(o))
  {
    hide Reapplied, CanonicalKeys, Enumerates;
    ReapplyOrderIrrelevant(w.m, w.mem, o, o');
    ReapplyTwice(w.m, w.mem, o, o');
  }

  /** In every reachable state resuming twice is resuming once, in whatever order each pass
      walks the recorded limits. */
  lemma ResumeIdempotent(m: Machine, first: DiskFile, tmp: DiskFile, events: seq<Event>,
                         o: seq<string>, o': seq<string>)
    requires CanonicalKeys(Load(first).ppt)
    ensures var w := Run(Off(m, first, tmp), events);
            w.alive && Enumerates(o, w.mem.ppt) && Enumerates(o', w.mem.ppt) ==>
              && Step(w, Resume(o)) == Step(w, Resume(o'))
              && Step(Step(w, Resume(o)), Resume(o')) == Step(w, Resume(o))
  {
    var w := Run(Off(m, first, tmp), events);
    ReachableCanonical(m, first, tmp, events);
    hide Run, Off, Reapplied, CanonicalKeys, Enumerates;
    if w.alive && Enumerates(o, w.mem.ppt) && Enumerates(o', w.mem.ppt) {
      ResumeTwice(w, o, o');
    }
  }

  /** What outlives whatever the firmware does. In every reachable state, after any change of the hardware,
      a resume brings back what the daemon remembers as far as the hardware then takes it, of limits
      the three known ones; and a crash at any point and a restart do so with what is on disk, which
      is what the daemon remembers once the latest save has succeeded. */
  lemma SurvivesReset(m: Machine, first: DiskFile, tmp: DiskFile, events: seq<Event>,
                      after: Machine, torn: DiskFile, o: seq<string>)
    requires CanonicalKeys(Load(first).ppt)
    ensures var w := Step(Run(Off(m, first, tmp), events), Environment(after));
            && (w.alive && w.pc == Idle && Enumerates(o, w.mem.ppt) ==> BroughtBack(after, w.mem, Step(w, Resume(o)).m))
            && (Enumerates(o, Load(w.main).ppt) ==> BroughtBack(after, Load(w.main), Run(w, [Crash(torn), Restart(o)]).m))
            && (w.alive && w.synced ==> Load(w.main) == w.mem)
  {
    hide Run, Off, Reapplied, Canonical, Enumerates, BroughtBack;
    var w := Step(Run(Off(m, first, tmp), events), Environment(after));
    ReachableCanonical(m, first, tmp, events);
    CrashSafe(m, first, tmp, events);
    if w.alive && w.pc == Idle && Enumerates(o, w.mem.ppt) {
      AllBroughtBack(after, w.mem, o);
    }
    if Enumerates(o, Load(w.main).ppt) {
      AllBroughtBack(after, Load(w.main), o);
      TwoSteps(w, Crash(torn), Restart(o));
    }
  }

  lemma RunOne(w: World, e: Event)
    ensures Run(w, [e]) == Step(w, e)
  {
    hide Step;
    assert [e][1..] == [];
    assert Run(w, [e]) == Run(Step(w, e), []);
  }

  lemma RunSnoc(w: World, es: seq<Event>, e: Event)
    ensures Run(w, es + [e]) == Step(Run(w, es), e)
  {
    RunThen(w, es, [e]);
    RunOne(Run(w, es), e);
  }

  lemma TwoSteps(w: World, e: Event, f: Event)
    ensures Run(w, [e, f]) == Step(Step(w, e), f)
  {
    hide Step, Run;
    RunOne(w, e);
    RunSnoc(w, [e], f);
    assert [e, f] == [e] + [f];
  }

  /** What a daemon starts from: the state on disk, whole; or, with no file or one that does not decode,
      nothing at all, and then the start leaves the hardware as it is. */
  lemma StartsFrom(w: World, order: seq<string>)
    requires !w.alive && w.saved <= |w.hist| && Enumerates(order, Load(w.main).ppt)
    ensures var t := Step(w, Restart(order));
            && t.alive && t.pc == w.pc
            && t.mem == (match w.main case Intact(st) => st case _ => State(None, None, map[]))
            && (!w.main.Intact? ==> t.m == w.m)
            && t.main == w.main && t.tmp == w.tmp
    ensures !w.main.Intact? ==> Enumerates([], Load(w.main).ppt)
  {
    NothingOnRecord();
    if !w.main.Intact? { NothingToReapply(w.m, Load(w.main), order); }
    hide Reapplied, RecordsProfile, RecordsMode;
  }

  lemma NothingOnRecord()
    ensures !RecordsProfile(State(None, None, map[])) && !RecordsMode(State(None, None, map[]))
  {
  }

  // ── one setter, start to finish ───────────────────────────────────────────

  /** How a setter that got past its hardware write ends: how far saving gets, and whether the signal,
      if there is one, can be sent. */
  datatype Closing = Closing(save: SaveFate, sent: bool)

  /** The reply to a request whose hardware write was accepted. */
  function Closed(job: Job, sent: bool): Reply {
    if Signals(JobRec(job)) && !sent then Err(BusFailed) else Ok(())
  }

  /** A request served by a daemon that does not crash. `race` is what the firmware made of
      sysfs between the checks and the hardware write, if it acted. */
  function Served(w: World, authorized: bool, req: Request, race: Option<Machine>, closing: Closing): World {
    var w1 := Step(w, Call(authorized, req));
    if !w1.pc.Admitted? then w1
    else
      var w2 := match race case Some(after) => Step(w1, Environment(after)) case None => w1;
      Step(Step(Step(Step(Step(w2, HardwareWrite), Record), WriteTemp(closing.save)), Rename(closing.save)),
           SendSignal(closing.sent))
  }

  /** Serving a request is one run of the transition system. */
  lemma ServedIsRun(w: World, authorized: bool, req: Request, race: Option<Machine>, closing: Closing)
    ensures exists events :: Served(w, authorized, req, race, closing) == Run(w, events)
  {
    hide Step, Run;
    var called := [Call(authorized, req)];
    RunOne(w, Call(authorized, req));
    if !Step(w, Call(authorized, req)).pc.Admitted? {
      assert Served(w, authorized, req, race, closing) == Run(w, called);
    } else {
      var raced := match race case Some(after) => called + [Environment(after)] case None => called;
      match race {
        case Some(after) => RunSnoc(w, called, Environment(after));
        case None =>
      }
      RunSnoc(w, raced, HardwareWrite);
      var recorded := raced + [HardwareWrite] + [Record];
      RunSnoc(w, raced + [HardwareWrite], Record);
      RunSnoc(w, recorded, WriteTemp(closing.save));
      RunSnoc(w, recorded + [WriteTemp(closing.save)], Rename(closing.save));
      var saved := recorded + [WriteTemp(closing.save)] + [Rename(closing.save)];
      RunSnoc(w, saved, SendSignal(closing.sent));
      assert Served(w, authorized, req, race, closing) == Run(w, saved + [SendSignal(closing.sent)]);
    }
  }

  /** The world once `job`, accepted over `seen`, has been recorded and its saving
      and its signal have gone as `closing` says. */
  function Completed(w: World, seen: Machine, job: Job, closing: Closing): World {
    var mem := Recorded(w.mem, JobRec(job));
    w.(m := AfterJob(seen, job), mem := mem, reply := Some(Closed(job, closing.sent)),
       main := if closing.save.Saved? then Intact(mem) else w.main,
       tmp := match closing.save case TempFails(t) => t case RenameFails => Intact(mem) case Saved => Absent,
       hist := w.hist + [JobRec(job)],
       saved := if closing.save.Saved? then |w.hist| + 1 else w.saved,
       synced := closing.save.Saved?,
       log := w.log + [Accepted(job, w.m, seen)])
  }

  /** From a recording on: save, then signal. */
  lemma ClosingSteps(w: World, closing: Closing)
    requires w.pc.Unsaved? && !w.synced
    ensures Step(Step(Step(w, WriteTemp(closing.save)), Rename(closing.save)), SendSignal(closing.sent)) ==
            w.(pc := Idle, reply := Some(if Signals(w.pc.rec) && !closing.sent then Err(BusFailed) else Ok(())),
               main := if closing.save.Saved? then Intact(w.mem) else w.main,
               tmp := match closing.save case TempFails(t) => t case RenameFails => Intact(w.mem) case Saved => Absent,
               saved := if closing.save.Saved? then |w.hist| else w.saved,
               synced := closing.save.Saved?)
  {
    hide Reapplied, Enumerates, Admission, AfterJob, JobOutcome, Recorded, FromHw, JobRec;
  }

  lemma AdmittedSteps(w: World, authorized: bool, req: Request, job: Job)
    requires w.alive && w.pc == Idle && Admission(w.m, authorized, req) == Ok(job)
    ensures var w1 := Step(w, Call(authorized, req));
            && w1 == w.(pc := Admitted(job, w.m), reply := None)
            && forall after :: Step(w1, Environment(after)) == w1.(m := after)
  {
    hide Reapplied, Enumerates, Admission, AfterJob, JobOutcome, Recorded, FromHw, JobRec;
  }

  lemma WriteSteps(w: World)
    requires w.pc.Admitted?
    ensures var job := w.pc.job;
            Step(Step(w, HardwareWrite), Record) ==
            match JobOutcome(w.m, job)
            case Err(e) => w.(pc := Idle, reply := Some(Err(FromHw(e))))
            case Ok(_) => w.(m := AfterJob(w.m, job), mem := Recorded(w.mem, JobRec(job)), pc := Unsaved(JobRec(job)),
                             hist := w.hist + [JobRec(job)], synced := false,
                             log := w.log + [Accepted(job, w.pc.checked, w.m)])
  {
    hide Reapplied, Enumerates, Admission, AfterJob, JobOutcome, Recorded, FromHw, JobRec, Signals;
  }

  /** What serving a checked request comes to. */
  lemma ServedChecked(w: World, authorized: bool, req: Request, race: Option<Machine>, closing: Closing, job: Job)
    requires w.alive && w.pc == Idle && Admission(w.m, authorized, req) == Ok(job)
    ensures var seen := if race.Some? then race.value else w.m;
            Served(w, authorized, req, race, closing) ==
            match JobOutcome(seen, job)
            case Err(e) => w.(m := seen, reply := Some(Err(FromHw(e))))
            case Ok(_) => Completed(w, seen, job, closing)
  {
    hide Step, Admission, JobOutcome, AfterJob, JobRec, Recorded, FromHw, Signals;
    var seen := if race.Some? then race.value else w.m;
    AdmittedSteps(w, authorized, req, job);
    var w2 := w.(m := seen, pc := Admitted(job, w.m), reply := None);
    WriteSteps(w2);
    var w4 := Step(Step(w2, HardwareWrite), Record);
    if JobOutcome(seen, job).Err? {
      IdleClosing(w4, closing);
    } else {
      ClosingSteps(w4, closing);
    }
  }

  lemma IdleClosing(w: World, closing: Closing)
    requires w.pc == Idle
    ensures Step(Step(Step(w, WriteTemp(closing.save)), Rename(closing.save)), SendSignal(closing.sent)) == w
  {
    hide Reapplied, Enumerates, Admission, AfterJob, JobOutcome, Recorded, FromHw, JobRec;
  }

  lemma ServedRejected(w: World, authorized: bool, req: Request, race: Option<Machine>, closing: Closing)
    requires w.alive && w.pc == Idle && Admission(w.m, authorized, req).Err?
    ensures Served(w, authorized, req, race, closing)
            == w.(reply := Some(Err(Admission(w.m, authorized, req).error)))
  {
  }

  /** Serving any request: rejected unchanged, failed leaving only the firmware's change, or
      completed. */
  lemma ServedExactly(w: World, authorized: bool, req: Request, race: Option<Machine>, closing: Closing)
    requires w.alive && w.pc == Idle
    ensures var seen := if race.Some? then race.value else w.m;
            Served(w, authorized, req, race, closing) ==
            match Admission(w.m, authorized, req)
            case Err(e) => w.(reply := Some(Err(e)))
            case Ok(job) =>
              match JobOutcome(seen, job)
              case Err(e) => w.(m := seen, reply := Some(Err(FromHw(e))))
              case Ok(_) => Completed(w, seen, job, closing)
  {
    hide Served, JobOutcome, Completed, FromHw, Admission;
    match Admission(w.m, authorized, req) {
      case Err(_) => ServedRejected(w, authorized, req, race, closing);
      case Ok(job) => ServedChecked(w, authorized, req, race, closing, job);
    }
  }

  // ── every refusal by its name ─────────────────────────────────────────────

  /** The replies to requests that never reach the hardware; they leave everything as it is. */
  lemma RejectionsByName(w: World, authorized: bool, req: Request, race: Option<Machine>, closing: Closing)
    requires w.alive && w.pc == Idle
    ensures var w' := Served(w, authorized, req, race, closing);
            && (!authorized ==> w' == w.(reply := Some(Err(NotAuthorized))))
            && (authorized && req.SetProfile? && ProfileFromUser(req.value).None? ==> w' == w.(reply := Some(Err(InvalidArgument))))
            && (authorized && req.SetBatteryMode? && ChargeFromUser(req.value).None? ==> w' == w.(reply := Some(Err(InvalidArgument))))
            && (authorized && req.SetPpt? && GetProfile(w.m) == Err(NotSupported) ==> w' == w.(reply := Some(Err(Unsupported))))
            && (authorized && req.SetPpt? && GetProfile(w.m) == Err(Parse) ==> w' == w.(reply := Some(Err(InvalidArgument))))
            && (authorized && req.SetPpt? && GetProfile(w.m).Ok? && !CustomSelected(w.m) ==>
                  w' == w.(reply := Some(Err(CustomModeRequired))))
  {
    hide Served, ProfileFromUser, ChargeFromUser, GetProfile, JobOutcome, Completed;
    ServedExactly(w, authorized, req, race, closing);
  }

  /** The hardware, as the request finds it at the write, answers with `e`. */
  predicate RefusedWith(w: World, seen: Machine, req: Request, e: HwError) {
    match req
    case SetProfile(v) => ProfileFromUser(v).Some? && SetProfileOutcome(seen, ProfileFromUser(v).value) == Err(e)
    case SetBatteryMode(v) => ChargeFromUser(v).Some? && SetModeOutcome(seen, ChargeFromUser(v).value) == Err(e)
    case SetPpt(attr, watts) => CustomSelected(w.m) && WriteLimitOutcome(seen, WriteDir(attr), watts) == Err(e)
  }

  /** The replies to requests the hardware refuses, one for each kind of error, the same for all three
      setters; nothing but the firmware's own change is left behind. */
  lemma RefusalsByName(w: World, req: Request, race: Option<Machine>, closing: Closing, e: HwError)
    requires w.alive && w.pc == Idle && RefusedWith(w, if race.Some? then race.value else w.m, req, e)
    ensures var w' := Served(w, true, req, race, closing);
            && w' == w.(m := if race.Some? then race.value else w.m, reply := w'.reply)
            && (e == NotSupported ==> w'.reply == Some(Err(Unsupported)))
            && (e == PermissionDenied ==> w'.reply == Some(Err(NotPermitted)))
            && (e == Busy ==> w'.reply == Some(Err(CustomModeRequired)))
            && (e == Io ==> w'.reply == Some(Err(Failed)))
            && (e == Parse ==> w'.reply == Some(Err(InvalidArgument)))
  {
    hide Served, ProfileFromUser, ChargeFromUser, GetProfile, Completed, SetProfileOutcome, SetModeOutcome, WriteLimitOutcome,
         RecordKey, WriteDir;
    ServedExactly(w, true, req, race, closing);
  }

  /** A charge mode the list does not have fails. */
  lemma UnlistedModeByName(w: World, value: string, closing: Closing)
    requires w.alive && w.pc == Idle && ChargeFromUser(value).Some? && ChargeTypes in w.m.files
    requires !Selectable(w.m.files[ChargeTypes], ChargeFromUser(value).value.AsSysfs())
    requires (ChargeTypes, ChargeFromUser(value).value.AsSysfs()) !in w.m.refuse
    ensures Served(w, true, SetBatteryMode(value), None, closing) == w.(reply := Some(Err(Failed)))
  {
    UnlistedMode(w.m, ChargeFromUser(value).value);
    hide Served, ChargeFromUser, SetModeOutcome, Selectable;
    RefusalsByName(w, SetBatteryMode(value), None, closing, Io);
  }

  /** Without a handler no profile is supported. */
  lemma NoDeviceByName(w: World, value: string, closing: Closing)
    requires w.alive && w.pc == Idle && ProfileFromUser(value).Some? && w.m.profileDir == []
    ensures Served(w, true, SetProfile(value), None, closing) == w.(reply := Some(Err(Unsupported)))
  {
    NoDevice(w.m, ProfileFromUser(value).value);
    hide Served, ProfileFromUser, SetProfileOutcome;
    RefusalsByName(w, SetProfile(value), None, closing, NotSupported);
  }

  /** A limit out of its bounds is an invalid argument, and one that does not exist not supported. */
  lemma LimitByName(w: World, attr: string, watts: u32, closing: Closing)
    requires w.alive && w.pc == Idle && CustomSelected(w.m)
    ensures ReadByName(w.m, WriteDir(attr)).Ok? && !ReadByName(w.m, WriteDir(attr)).value.InRange(watts) ==>
              Served(w, true, SetPpt(attr, watts), None, closing) == w.(reply := Some(Err(InvalidArgument)))
    ensures CurrentValue(WriteDir(attr)) !in w.m.files ==>
              Served(w, true, SetPpt(attr, watts), None, closing) == w.(reply := Some(Err(Unsupported)))
  {
    LimitCauses(w.m, WriteDir(attr), watts);
    hide Served, CustomSelected, WriteLimitOutcome, ReadByName, WriteDir;
    if WriteLimitOutcome(w.m, WriteDir(attr), watts) == Err(Parse) {
      RefusalsByName(w, SetPpt(attr, watts), None, closing, Parse);
    }
    if WriteLimitOutcome(w.m, WriteDir(attr), watts) == Err(NotSupported) {
      RefusalsByName(w, SetPpt(attr, watts), None, closing, NotSupported);
    }
  }

  lemma UnlistedMode(m: Machine, c: ChargeMode)
    ensures ChargeTypes in m.files && !Selectable(m.files[ChargeTypes], c.AsSysfs()) && (ChargeTypes, c.AsSysfs()) !in m.refuse
            ==> SetModeOutcome(m, c) == Err(Io)
  {
    hide Selectable;
  }

  lemma NoDevice(m: Machine, p: PowerProfile)
    ensures m.profileDir == [] ==> SetProfileOutcome(m, p) == Err(NotSupported)
  {
    DeviceIsLeast(m, "");
    hide Device;
  }

  lemma LimitCauses(m: Machine, dir: string, watts: u32)
    ensures ReadByName(m, dir).Ok? && !ReadByName(m, dir).value.InRange(watts) ==> WriteLimitOutcome(m, dir, watts) == Err(Parse)
    ensures CurrentValue(dir) !in m.files ==> WriteLimitOutcome(m, dir, watts) == Err(NotSupported)
  {
    hide ReadU32, ReadU32Or, ReadOpt, ListKey, Print;
  }

  // ── the setters one by one ────────────────────────────────────────────────

  /** Serving SetPpt, case by case. */
  lemma SetPptServed(w: World, authorized: bool, attr: string, watts: u32, race: Option<Machine>, closing: Closing)
    requires w.alive && w.pc == Idle
    ensures var w', dir := Served(w, authorized, SetPpt(attr, watts), race, closing), WriteDir(attr);
            var seen := if race.Some? then race.value else w.m;
            if !(authorized && CustomSelected(w.m))
            then w' == w.(reply := Some(Err(if !authorized then NotAuthorized else
                              match GetProfile(w.m) case Err(e) => FromHw(e) case Ok(_) => CustomModeRequired)))
            else match WriteLimitOutcome(seen, dir, watts)
                 case Err(e) => w' == w.(m := seen, reply := Some(Err(FromHw(e))))
                 case Ok(_) =>
                   && w'.m == AfterWriteLimit(seen, dir, watts) && w'.reply == Some(Ok(())) && w'.pc == Idle
                   && w'.mem == w.mem.(ppt := w.mem.ppt[RecordKey(attr) := watts])
                   && w'.main == (if closing.save.Saved? then Intact(w'.mem) else w.main)
  {
    hide Served, WriteLimitOutcome, AfterWriteLimit, RecordKey, WriteDir;
    if authorized && CustomSelected(w.m) {
      ServedChecked(w, authorized, SetPpt(attr, watts), race, closing, JobPpt(RecordKey(attr), WriteDir(attr), watts));
    } else {
      ServedRejected(w, authorized, SetPpt(attr, watts), race, closing);
    }
  }

  /** SetPpt is a transaction, even when the firmware leaves Custom between the check and the write.
      It succeeds exactly when it is authorized in Custom and the kernel takes the value as it then
      finds sysfs; success writes that one value, remembers it under the recorded key and saves it
      if saving works; failure leaves sysfs as the firmware left it, and memory and disk alone. */
  lemma SetPptTransaction(w: World, authorized: bool, attr: string, watts: u32, race: Option<Machine>, closing: Closing)
    requires w.alive && w.pc == Idle
    ensures var w', dir := Served(w, authorized, SetPpt(attr, watts), race, closing), WriteDir(attr);
            var checked := authorized && CustomSelected(w.m);
            var seen := if checked && race.Some? then race.value else w.m;
            && w'.pc == Idle && w'.reply.Some?
            && (w'.reply == Some(Ok(())) <==> checked && AcceptedLimit(seen, dir, watts))
            && (if w'.reply == Some(Ok(()))
                then OnlyChanged(seen, w'.m, {CurrentValue(dir)})
                     && ReadByName(seen, dir).Ok?
                     && ReadByName(w'.m, dir) == Ok(ReadByName(seen, dir).value.(current := watts))
                     && w'.mem == w.mem.(ppt := w.mem.ppt[RecordKey(attr) := watts])
                     && w'.main == (if closing.save.Saved? then Intact(w'.mem) else w.main)
                else w'.m == seen && w'.mem == w.mem && w'.main == w.main && w'.tmp == w.tmp && w'.hist == w.hist)
  {
    hide *;
    var dir := WriteDir(attr);
    var seen := if race.Some? then race.value else w.m;
    SetPptServed(w, authorized, attr, watts, race, closing);
    AcceptedExactly(seen, dir, watts);
    WriteThenRead(seen, dir, watts);
  }

  /** Leaving Custom while the gate is enforced is answered with the error that says so, and
      nothing but the firmware's own change is left behind. */
  lemma SetPptRaceLost(w: World, attr: string, watts: u32, after: Machine, closing: Closing)
    requires w.alive && w.pc == Idle && CustomSelected(w.m)
    requires after.gate && !CustomSelected(after) && LimitRefusal(after, WriteDir(attr), watts) == None
    ensures Served(w, true, SetPpt(attr, watts), Some(after), closing)
            == w.(m := after, reply := Some(Err(CustomModeRequired)))
  {
    assert FromHw(Busy) == CustomModeRequired;
    hide *;
    SetPptServed(w, true, attr, watts, Some(after), closing);
    BusyExactly(after, WriteDir(attr), watts);
  }

  /** Without interference it never writes outside Custom, even if the kernel's gate is gone. */
  lemma SetPptOnlyInCustom(w: World, authorized: bool, attr: string, watts: u32, closing: Closing)
    requires w.alive && w.pc == Idle
    ensures Served(w, authorized, SetPpt(attr, watts), None, closing).m != w.m ==> CustomSelected(w.m)
  {
    hide *;
    SetPptServed(w, authorized, attr, watts, None, closing);
  }

  /** Serving SetProfile. Once the hardware has taken it, the profile asked for is the one it is in,
      read back by every accessor, and the one remembered; only that device's file has changed. The
      reply says so unless the closing signal fails: then it is an error all the same. */
  lemma SetProfileServed(w: World, authorized: bool, value: string, race: Option<Machine>, closing: Closing)
    requires w.alive && w.pc == Idle
    ensures var w', asked := Served(w, authorized, SetProfile(value), race, closing), ProfileFromUser(value);
            var checked := authorized && asked.Some?;
            var seen := if checked && race.Some? then race.value else w.m;
            var taken := checked && SetProfileOutcome(seen, asked.value).Ok?;
            && (w'.reply == Some(Ok(())) <==> taken && closing.sent)
            && (w'.reply == Some(Err(BusFailed)) <==> taken && !closing.sent)
            && (if taken
                then && Device(seen).Some? && Device(w'.m) == Device(seen)
                     && GetProfile(w'.m) == Ok(asked.value)
                     && OnlyChanged(seen, w'.m, {ProfileAttr(Device(seen).value, "profile")})
                     && w'.mem == w.mem.(profile := Some(asked.value.AsSysfs()))
                     && w'.main == (if closing.save.Saved? then Intact(w'.mem) else w.main)
                else w'.m == seen && w'.mem == w.mem && w'.main == w.main && w'.tmp == w.tmp && w'.hist == w.hist)
  {
    NeverBusFailed(w.m, authorized, SetProfile(value));
    hide Served, ProfileFromUser, GetProfile, Device, SetProfileOutcome, AfterSetProfile, OnlyChanged;
    ServedExactly(w, authorized, SetProfile(value), race, closing);
    if authorized && ProfileFromUser(value).Some? {
      OneDevice(if race.Some? then race.value else w.m, ProfileFromUser(value).value);
    }
  }

  lemma NeverBusFailed(m: Machine, authorized: bool, req: Request)
    ensures Admission(m, authorized, req) != Err(BusFailed)
    ensures forall e :: FromHw(e) != BusFailed
  {
    hide ProfileFromUser, ChargeFromUser, GetProfile, RecordKey, WriteDir;
  }

  /** Serving SetBatteryMode. Once the hardware has taken it, the mode asked for is active, as far as
      the list of types can be read at all, and remembered; only that list has changed. */
  lemma SetBatteryModeServed(w: World, authorized: bool, value: string, race: Option<Machine>, closing: Closing)
    requires w.alive && w.pc == Idle
    ensures var w', asked := Served(w, authorized, SetBatteryMode(value), race, closing), ChargeFromUser(value);
            var checked := authorized && asked.Some?;
            var seen := if checked && race.Some? then race.value else w.m;
            var taken := checked && SetModeOutcome(seen, asked.value).Ok?;
            && (w'.reply == Some(Ok(())) <==> taken && closing.sent)
            && (w'.reply == Some(Err(BusFailed)) <==> taken && !closing.sent)
            && (if taken
                then && (GetMode(w'.m) == Ok(asked.value) <==> ListReadable(seen))
                     && OnlyChanged(seen, w'.m, {ChargeTypes})
                     && w'.mem == w.mem.(batteryMode := Some(asked.value.AsSysfs()))
                     && w'.main == (if closing.save.Saved? then Intact(w'.mem) else w.main)
                else w'.m == seen && w'.mem == w.mem && w'.main == w.main && w'.tmp == w.tmp && w'.hist == w.hist)
  {
    NeverBusFailed(w.m, authorized, SetBatteryMode(value));
    hide Served, ChargeFromUser, GetMode, ListReadable, SetModeOutcome, AfterSetMode, OnlyChanged;
    ServedExactly(w, authorized, SetBatteryMode(value), race, closing);
    if authorized && ChargeFromUser(value).Some? {
      var seen := if race.Some? then race.value else w.m;
      if SetModeOutcome(seen, ChargeFromUser(value).value).Ok? { SetThenGetMode(seen, ChargeFromUser(value).value); }
    }
  }

  /** Reapplying is not harmless to a choice made with Fn+Q. Having gone to Custom that way while the
      daemon remembers another profile, a user sets a limit; it is accepted and remembered. The next
      resume goes back to the remembered profile and restores no limit. */
  lemma RememberedNotRestored(w: World, attr: string, watts: u32, closing: Closing, after: Machine,
                              o: seq<string>, p: PowerProfile)
    requires w.alive && w.pc == Idle && CanonicalKeys(w.mem.ppt)
    requires w.mem.profile == Some(p.AsSysfs()) && p != Custom
    requires CustomSelected(w.m) && AcceptedLimit(w.m, WriteDir(attr), watts)
    requires Enumerates(o, w.mem.ppt[RecordKey(attr) := watts])
    requires after.gate && SetProfileOutcome(after, p).Ok?
    ensures var w1 := Served(w, true, SetPpt(attr, watts), None, closing);
            var w2 := Step(Step(w1, Environment(after)), Resume(o));
            && w1.reply == Some(Ok(())) && RecordKey(attr) in w1.mem.ppt && w1.mem.ppt[RecordKey(attr)] == watts
            && GetProfile(w2.m) == Ok(p)
            && forall dir :: ReadByName(w2.m, dir) == ReadByName(after, dir)
  {
    assert CanonicalKeys(w.mem.ppt[RecordKey(attr) := watts]) by { OneMoreKey(w.mem.ppt, attr, watts); }
    hide *;
    SetPptTransaction(w, true, attr, watts, None, closing);
    ServedAlive(w, true, SetPpt(attr, watts), None, closing);
    var w1 := Served(w, true, SetPpt(attr, watts), None, closing);
    ThenResumed(w1, after, o);
    RestoredProfile(after, w1.mem, o, p);
    forall dir ensures ReadByName(Reapplied(after, w1.mem, o), dir) == ReadByName(after, dir) {
      LimitsLeftAlone(after, w1.mem, o, p, dir);
    }
  }

  lemma OneMoreKey(ppt: map<string, u32>, attr: string, watts: u32)
    requires CanonicalKeys(ppt)
    ensures CanonicalKeys(ppt[RecordKey(attr) := watts])
  {
    hide RecordKey, Canonical;
    DoubleNormalisation(attr);
  }

  lemma ThenResumed(w: World, after: Machine, o: seq<string>)
    requires w.alive && w.pc == Idle && Enumerates(o, w.mem.ppt)
    ensures Step(Step(w, Environment(after)), Resume(o)).m == Reapplied(after, w.mem, o)
  {
    hide Reapplied, Enumerates;
  }

  /** Nor is everything remembered reapplied. A limit under any other name than the three known ones can be
      set, is accepted and remembered, and is then never restored: a resume leaves its attribute as
      it finds it, whatever the profile and the gate. */
  lemma OtherLimitNotRestored(w: World, attr: string, watts: u32, closing: Closing, after: Machine, o: seq<string>)
    requires w.alive && w.pc == Idle && CanonicalKeys(w.mem.ppt)
    requires PptFromKey(attr).None? && CustomSelected(w.m) && AcceptedLimit(w.m, attr, watts)
    requires Enumerates(o, w.mem.ppt[attr := watts])
    ensures var w1 := Served(w, true, SetPpt(attr, watts), None, closing);
            var w2 := Step(Step(w1, Environment(after)), Resume(o));
            && w1.reply == Some(Ok(())) && w1.mem == w.mem.(ppt := w.mem.ppt[attr := watts])
            && ReadByName(w2.m, attr) == ReadByName(after, attr)
  {
    assert RecordKey(attr) == attr && WriteDir(attr) == attr;
    assert CanonicalKeys(w.mem.ppt[RecordKey(attr) := watts]) by { OneMoreKey(w.mem.ppt, attr, watts); }
    UnknownName(attr);
    var w1 := Served(w, true, SetPpt(attr, watts), None, closing);
    assert forall st :: Regained(after, st, attr) == None;
    hide *;
    SetPptTransaction(w, true, attr, watts, None, closing);
    ServedAlive(w, true, SetPpt(attr, watts), None, closing);
    ThenResumed(w1, after, o);
    ComesBackExactly(after, w1.mem, o, attr);
  }

  lemma UnknownName(attr: string)
    requires PptFromKey(attr).None?
    ensures PptFromDir(attr).None?
  {
    match PptFromDir(attr) {
      case Some(a) =>
        PptDirExact(attr, a);
        PptReparses(a);
      case None =>
    }
  }

  lemma ServedAlive(w: World, authorized: bool, req: Request, race: Option<Machine>, closing: Closing)
    requires w.alive && w.pc == Idle
    ensures Served(w, authorized, req, race, closing).alive
  {
    hide Served, JobOutcome, FromHw, Admission;
    ServedExactly(w, authorized, req, race, closing);
  }
}
