/** The daemon's transition system with its event loop: the watcher and the signals, over the
    machine and the setters of `Protocol`. It behaves as the small protocol of `Converge` does. */
module Live {
  import opened Wrappers
  import opened Names
  import opened Sysfs
  import opened Discovery
  import opened Watch
  import opened Converge
  import Hardware
  import Reapply
  import Store
  import Text
  import P = Protocol

  /** One daemon process from the opening of its watcher on: `file` is what the watcher holds open, `owed`
      says that a resume has reapplied and its signal is still to be sent. */
  datatype System = System(
    w: P.World, file: Path, pending: bool, last: Shown, view: Shown, emitting: bool, direct: bool, owed: bool)

  datatype Move =
    | Daemon(e: P.Event, raised: bool)  // any step of the daemon or its surroundings, with or without a kernel event
    | Announce(sent: bool)              // the signal a resume ends with
    | WakeUp(ok: bool)                  // whether the re-read gets as far as the file's content
    | Signal(sent: bool)                // the signal for a change the watcher has reported

  /** The property clients read; a profile that cannot be read comes as none. */
  function ProfileProperty(m: Machine): Shown {
    match GetProfile(m) case Ok(p) => Some(p) case Err(_) => None
  }

  /** The step by which SetProfile tells clients of the profile. */
  predicate Tells(w: P.World, e: P.Event) {
    e == P.SendSignal(true) && w.pc.Signalling? && w.pc.rec.RecProfile?
  }

  predicate Resumes(w: P.World, e: P.Event) {
    e.Resume? && w.alive && w.pc == P.Idle && Reapply.Enumerates(e.order, w.mem.ppt)
  }

  function Do(s: System, mv: Move): System {
    match mv
    case Daemon(e, raised) =>
      var w := P.Step(s.w, e);
      if Tells(s.w, e) then s.(w := w, view := ProfileProperty(w.m), direct := true)
      else s.(w := w, pending := s.pending || raised, owed := s.owed || Resumes(s.w, e))
    case Announce(sent) =>
      if !s.owed then s
      else if sent then s.(view := ProfileProperty(s.w.m), direct := true, owed := false)
      else s.(owed := false)
    case WakeUp(ok) =>
      if !s.pending || s.emitting || s.owed then s
      else
        var woken := s.(pending := false, direct := false);
        (match Noticed(s.last, if ok then Reading(s.w.m, s.file) else None)
         case Some(p) => woken.(last := Some(p), emitting := true)
         case None => woken)
    case Signal(sent) =>
      if s.emitting then s.(view := if sent then ProfileProperty(s.w.m) else s.view, emitting := false) else s
  }

  function Played(s: System, moves: seq<Move>): System
    decreases |moves|
  {
    if moves == [] then s else Played(Do(s, moves[0]), moves[1..])
  }

  /** The watcher's file is still the selected device's, and the daemon is up. */
  predicate Attached(s: System) {
    s.w.alive && ProfileFile(s.w.m) == Some(s.file)
  }

  /** The kernel raises its event whenever what the file reads changes. */
  predicate Notified(s: System, mv: Move) {
    mv.Daemon? && Reading(P.Step(s.w, mv.e).m, s.file) != Reading(s.w.m, s.file) ==> mv.raised
  }

  ghost predicate Steady(s: System, moves: seq<Move>)
    decreases |moves|
  {
    Attached(s) && (moves != [] ==> Notified(s, moves[0]) && Steady(Do(s, moves[0]), moves[1..]))
  }

  function Abs(s: System): Net {
    Net(Reading(s.w.m, s.file), s.pending, s.last, s.view, s.emitting, s.direct)
  }

  /** What a move is to the small protocol: at most one act. */
  function Shadow(s: System, mv: Move): seq<Act> {
    match mv
    case Daemon(e, raised) =>
      if Tells(s.w, e) then [DirectEmit]
      else if raised then [Change(Reading(P.Step(s.w, e).m, s.file))]
      else []
    case Announce(sent) => if s.owed && sent then [DirectEmit] else []
    case WakeUp(ok) => if s.owed then [] else [Wake(ok)]
    case Signal(sent) => [Emit(sent)]
  }

  function Shadows(s: System, moves: seq<Move>): seq<Act>
    decreases |moves|
  {
    if moves == [] then [] else Shadow(s, moves[0]) + Shadows(Do(s, moves[0]), moves[1..])
  }

  /** The property and the watcher's own read agree as long as both follow one device. */
  lemma SameReading(s: System)
    requires Attached(s)
    ensures ProfileProperty(s.w.m) == Reading(s.w.m, s.file)
  {
    PropertyReads(s.w.m, s.file);
  }

  lemma PropertyReads(m: Machine, file: Path)
    requires ProfileFile(m) == Some(file)
    ensures ProfileProperty(m) == Reading(m, file)
  {
    hide Device, Read, ProfileFromSysfs;
  }

  lemma ShadowStep(s: System, mv: Move)
    requires Attached(s) && Notified(s, mv)
    ensures Shadow(s, mv) == [] ==> Abs(Do(s, mv)) == Abs(s)
    ensures Shadow(s, mv) != [] ==> |Shadow(s, mv)| == 1 && Abs(Do(s, mv)) == Next(Abs(s), Shadow(s, mv)[0])
  {
    if mv.Daemon? && Tells(s.w, mv.e) { TellingStep(s.w); }
    hide ProfileProperty, Reading, P.Step, ProfileFile, Resumes;
    SameReading(s);
  }

  lemma TellingStep(w: P.World)
    requires Tells(w, P.SendSignal(true))
    ensures P.Step(w, P.SendSignal(true)) == w.(pc := P.Idle, reply := Some(Ok(())))
  {
  }

  /** Every run of the whole system is, seen by its clients, a run of the small protocol. */
  lemma {:induction false} Simulates(s: System, moves: seq<Move>)
    requires Steady(s, moves)
    ensures Attached(Played(s, moves))
    ensures Abs(Played(s, moves)) == After(Abs(s), Shadows(s, moves))
    decreases |moves|
  {
    if moves != [] {
      hide Do, Abs, Shadow, Attached, Notified, Next;
      ShadowStep(s, moves[0]);
      Simulates(Do(s, moves[0]), moves[1..]);
      var rest := Shadows(Do(s, moves[0]), moves[1..]);
      if Shadow(s, moves[0]) == [] {
        assert Shadows(s, moves) == rest;
      } else {
        assert Shadows(s, moves)[1..] == rest;
      }
    }
  }

  /** Clients see the profile the hardware is in, or something is on its way to them. */
  predicate UpToDate(s: System) {
    s.view == ProfileProperty(s.w.m) || s.pending || s.emitting
  }

  lemma UpToDateIsCurrent(s: System)
    requires Attached(s)
    ensures UpToDate(s) <==> Current(Abs(s))
  {
    SameReading(s);
    hide ProfileProperty, Reading, Attached;
  }

  /** Convergence of the whole: Fn+Q, setters, resumes, saves and wake-ups interleaved in any way. From
      the opening of the watcher on, if signals are fresh, no direct signal is followed by a stale
      wake-up and reads work, then once the watcher has reported anything clients see the current
      profile and so does `last`, or something is on its way. */
  lemma ClientsConverge(s: System, moves: seq<Move>)
    requires Steady(s, moves) && s.last.None? && !s.emitting
    requires var acts := Shadows(s, moves);
             Along(FreshSignal, Abs(s), acts) && Along(NoStaleWake, Abs(s), acts) && Along(ReadsWork, Abs(s), acts)
    ensures var t := Played(s, moves);
            t.last.Some? ==> UpToDate(t) && (t.last == t.view || t.pending || t.emitting)
  {
    hide Played, Shadows, Reading, UpToDate, Attached, Along;
    Simulates(s, moves);
    Converges(Abs(s), Shadows(s, moves));
    UpToDateIsCurrent(Played(s, moves));
  }

  /** It is enough that the firmware does not go back to `last` behind the clients' backs. */
  lemma ClientsConvergeWithoutReturns(s: System, moves: seq<Move>)
    requires Steady(s, moves) && s.last.None? && !s.emitting
    requires var acts := Shadows(s, moves);
             Along(FreshSignal, Abs(s), acts) && Along(NoReturn, Abs(s), acts) && Along(ReadsWork, Abs(s), acts)
    ensures var t := Played(s, moves);
            t.last.Some? ==> UpToDate(t) && (t.last == t.view || t.pending || t.emitting)
  {
    hide Played, Shadows, Reading, UpToDate, Attached, Along;
    NoReturnSuffices(Abs(s), Shadows(s, moves));
    ClientsConverge(s, moves);
  }

  ghost predicate StaysUpToDate(s: System, moves: seq<Move>)
    decreases |moves|
  {
    UpToDate(s) && (moves != [] ==> StaysUpToDate(Do(s, moves[0]), moves[1..]))
  }

  lemma {:induction false} StaysCurrent(s: System, moves: seq<Move>)
    requires Steady(s, moves)
    ensures StaysUpToDate(s, moves) <==> AlwaysCurrent(Abs(s), Shadows(s, moves))
    decreases |moves|
  {
    hide Do, Abs, Shadow, Attached, Notified, Next, UpToDate, Current;
    UpToDateIsCurrent(s);
    if moves != [] {
      ShadowStep(s, moves[0]);
      StaysCurrent(Do(s, moves[0]), moves[1..]);
      var rest := Shadows(Do(s, moves[0]), moves[1..]);
      if Shadow(s, moves[0]) == [] {
        assert Shadows(s, moves) == rest;
        CurrentAtStart(Abs(s), rest);
      } else {
        assert Shadows(s, moves)[1..] == rest;
      }
    }
  }

  lemma CurrentAtStart(s: Net, acts: seq<Act>)
    ensures AlwaysCurrent(s, acts) ==> Current(s)
  {
  }

  /** And the exact condition, rules or not: clients stay up to date throughout exactly if no wake-up
      is swallowed while they see something else. */
  lemma UpToDateExactly(s: System, moves: seq<Move>)
    requires Steady(s, moves) && UpToDate(s)
    ensures StaysUpToDate(s, moves) <==> NeverLoses(Abs(s), Shadows(s, moves))
  {
    hide Shadows, StaysUpToDate, AlwaysCurrent, NeverLoses, UpToDate, Attached;
    UpToDateIsCurrent(s);
    StaysCurrent(s, moves);
    CurrentExactly(Abs(s), Shadows(s, moves));
  }

  // ── a resume and its signal ───────────────────────────────────────────────

  /** A resume owes its clients a signal; until that is sent or has failed, the loop does nothing else; and
      once sent it has told them the profile of the reapplied machine. */
  lemma ResumeInforms(s: System, o: seq<string>, raised: bool, sent: bool)
    requires s.w.alive && s.w.pc == P.Idle && Reapply.Enumerates(o, s.w.mem.ppt)
    ensures var t := Do(s, Daemon(P.Resume(o), raised));
            && t.owed && t.w == s.w.(m := Reapply.Reapplied(s.w.m, s.w.mem, o)) && t.view == s.view
            && (forall ok :: Do(t, WakeUp(ok)) == t)
            && var u := Do(t, Announce(sent));
               && u.w == t.w && !u.owed
               && (if sent then u.view == ProfileProperty(t.w.m) && u.direct && UpToDate(u) else u.view == s.view)
  {
    hide ProfileProperty, Reapply.Reapplied, Reapply.Enumerates, Reading;
  }

  /** And no signal comes of its own. */
  lemma OnlyResumesAnnounce(s: System, e: P.Event, raised: bool, sent: bool)
    requires !s.owed
    ensures Do(s, Announce(sent)) == s
    ensures Do(s, Daemon(e, raised)).owed <==> e.Resume? && s.w.alive && s.w.pc == P.Idle && Reapply.Enumerates(e.order, s.w.mem.ppt)
  {
    hide ProfileProperty, Reapply.Reapplied, Reapply.Enumerates, P.Step;
  }

  // ── a setter's own signal ─────────────────────────────────────────────────

  /** The closing step of SetProfile, whatever the firmware did before it: the caller is told of success
      exactly if the signal is sent, and then clients see the profile as it is at that moment. */
  lemma SetterInforms(s: System, sent: bool, raised: bool)
    requires s.w.pc.Signalling? && s.w.pc.rec.RecProfile?
    ensures var t := Do(s, Daemon(P.SendSignal(sent), raised));
            && t.w.m == s.w.m && t.w.pc == P.Idle && t.w.reply.Some?
            && (t.w.reply == Some(Ok(())) <==> sent)
            && (if sent then t.view == ProfileProperty(t.w.m) && UpToDate(t) else t.view == s.view)
  {
    hide ProfileProperty;
  }

  /** No other step of the daemon or its surroundings changes what clients see of the profile. */
  lemma OtherStepsSilent(s: System, e: P.Event, raised: bool)
    ensures Do(s, Daemon(e, raised)).view != s.view ==>
              e == P.SendSignal(true) && s.w.pc.Signalling? && s.w.pc.rec.RecProfile?
  {
    hide ProfileProperty, P.Step, Resumes;
  }

  /** All the moves of SetProfile; `raised` is whether the hardware write raises the kernel's event. */
  function SetterMoves(value: string, save: Store.SaveFate, raised: bool, sent: bool): seq<Move> {
    [Daemon(P.Call(true, P.SetProfile(value)), false)] + [Daemon(P.HardwareWrite, raised)] + [Daemon(P.Record, false)]
    + [Daemon(P.WriteTemp(save), false)] + [Daemon(P.Rename(save), false)] + [Daemon(P.SendSignal(sent), false)]
  }

  predicate Takes(w: P.World, value: string) {
    && w.alive && w.pc == P.Idle
    && ProfileFromUser(value).Some? && Hardware.SetProfileOutcome(w.m, ProfileFromUser(value).value).Ok?
  }

  /** The worlds a setter goes through that the hardware accepts. */
  lemma SetterWorlds(w: P.World, value: string, save: Store.SaveFate, sent: bool)
      returns (w1: P.World, w2: P.World, w3: P.World, w4: P.World, w5: P.World)
    requires Takes(w, value)
    ensures w1 == P.Step(w, P.Call(true, P.SetProfile(value))) && w2 == P.Step(w1, P.HardwareWrite)
    ensures w3 == P.Step(w2, P.Record) && w4 == P.Step(w3, P.WriteTemp(save)) && w5 == P.Step(w4, P.Rename(save))
    ensures P.Step(w5, P.SendSignal(sent)) == P.Served(w, true, P.SetProfile(value), None, P.Closing(save, sent))
    ensures w1.m == w.m && w2.m == Hardware.AfterSetProfile(w.m, ProfileFromUser(value).value)
    ensures w3.m == w2.m && w4.m == w2.m && w5.m == w2.m && P.Step(w5, P.SendSignal(sent)).m == w2.m
    ensures w1.alive && w2.alive && w3.alive && w4.alive && w5.alive && P.Step(w5, P.SendSignal(sent)).alive
    ensures w5.pc == P.Signalling(Store.RecProfile(ProfileFromUser(value).value))
    ensures P.Step(w5, P.SendSignal(sent)).pc == P.Idle
  {
    hide ProfileFromUser, Hardware.SetProfileOutcome, Hardware.AfterSetProfile, Store.Recorded, Reapply.Reapplied;
    w1 := P.Step(w, P.Call(true, P.SetProfile(value)));
    w2 := P.Step(w1, P.HardwareWrite);
    w3 := P.Step(w2, P.Record);
    w4 := P.Step(w3, P.WriteTemp(save));
    w5 := P.Step(w4, P.Rename(save));
  }

  /** `moves` lead from `s` to `t`, steadily, and are `acts` to the small protocol. */
  ghost predicate Leads(s: System, moves: seq<Move>, t: System, acts: seq<Act>) {
    Steady(s, moves) && Played(s, moves) == t && Shadows(s, moves) == acts
  }

  lemma LeadsNowhere(s: System)
    requires Attached(s)
    ensures Leads(s, [], s, [])
  {
  }

  lemma LeadsByOne(s: System, mv: Move)
    requires Attached(s) && Notified(s, mv) && Attached(Do(s, mv))
    ensures Leads(s, [mv], Do(s, mv), Shadow(s, mv))
  {
    hide Do, Attached, Notified, Shadow;
    var t := Do(s, mv);
    assert [mv][1..] == [];
    assert Steady(t, []) && Played(t, []) == t && Shadows(t, []) == [];
    assert Shadow(s, mv) + [] == Shadow(s, mv);
  }

  lemma {:induction false} LeadsThen(s: System, moves: seq<Move>, t: System, acts: seq<Act>,
                                     moves': seq<Move>, u: System, acts': seq<Act>)
    requires Leads(s, moves, t, acts) && Leads(t, moves', u, acts')
    ensures Leads(s, moves + moves', u, acts + acts')
    decreases |moves|
  {
    hide Do, Attached, Notified, Shadow;
    if moves == [] {
      assert moves + moves' == moves' && acts + acts' == acts';
    } else {
      var s1 := Do(s, moves[0]);
      var rest := Shadows(s1, moves[1..]);
      assert (moves + moves')[1..] == moves[1..] + moves';
      LeadsThen(s1, moves[1..], t, rest, moves', u, acts');
      assert acts + acts' == Shadow(s, moves[0]) + (rest + acts');
    }
  }

  lemma SteadyThen(s: System, moves: seq<Move>, moves': seq<Move>)
    requires Steady(s, moves) && Steady(Played(s, moves), moves')
    ensures Steady(s, moves + moves') && Played(s, moves + moves') == Played(Played(s, moves), moves')
  {
    var t := Played(s, moves);
    assert Leads(s, moves, t, Shadows(s, moves)) && Leads(t, moves', Played(t, moves'), Shadows(t, moves'));
    LeadsThen(s, moves, t, Shadows(s, moves), moves', Played(t, moves'), Shadows(t, moves'));
    hide Steady, Played, Shadows;
  }

  lemma LeadsOn(s: System, moves: seq<Move>, t: System, acts: seq<Act>, mv: Move)
    requires Leads(s, moves, t, acts) && Attached(t) && Notified(t, mv) && Attached(Do(t, mv))
    ensures Leads(s, moves + [mv], Do(t, mv), acts + Shadow(t, mv))
  {
    hide *;
    LeadsByOne(t, mv);
    LeadsThen(s, moves, t, acts, [mv], Do(t, mv), Shadow(t, mv));
  }

  /** A step of the daemon that leaves sysfs alone and tells no one. */
  lemma SilentStep(s: System, moves: seq<Move>, t: System, acts: seq<Act>, e: P.Event)
    requires Leads(s, moves, t, acts) && Attached(t) && !e.SendSignal? && !e.Resume?
    requires P.Step(t.w, e).m == t.w.m && P.Step(t.w, e).alive
    ensures var u := t.(w := P.Step(t.w, e));
            Leads(s, moves + [Daemon(e, false)], u, acts) && Attached(u)
  {
    hide P.Step, Leads, Reading, ProfileFile, ProfileProperty;
    LeadsOn(s, moves, t, acts, Daemon(e, false));
    assert acts + [] == acts;
  }

  lemma WritingStep(s: System, moves: seq<Move>, t: System, acts: seq<Act>, p: PowerProfile, raised: bool)
    requires Leads(s, moves, t, acts) && Attached(t)
    requires P.Step(t.w, P.HardwareWrite).m == Hardware.AfterSetProfile(t.w.m, p) && P.Step(t.w, P.HardwareWrite).alive
    requires Hardware.SetProfileOutcome(t.w.m, p).Ok?
    requires Reading(Hardware.AfterSetProfile(t.w.m, p), t.file) != Reading(t.w.m, t.file) ==> raised
    ensures var u := t.(w := P.Step(t.w, P.HardwareWrite), pending := t.pending || raised);
            && Leads(s, moves + [Daemon(P.HardwareWrite, raised)], u, acts + if raised then [Change(Some(p))] else [])
            && Attached(u)
  {
    SetReads(t.w.m, t.file, p);
    hide P.Step, Leads, Reading, ProfileFile, ProfileProperty, Hardware.AfterSetProfile, Hardware.SetProfileOutcome;
    LeadsOn(s, moves, t, acts, Daemon(P.HardwareWrite, raised));
  }

  lemma SetReads(m: Machine, file: Path, p: PowerProfile)
    requires ProfileFile(m) == Some(file) && Hardware.SetProfileOutcome(m, p).Ok?
    ensures ProfileFile(Hardware.AfterSetProfile(m, p)) == Some(file)
    ensures Reading(Hardware.AfterSetProfile(m, p), file) == Some(p)
  {
    hide Device, GetProfile, Hardware.AfterSetProfile, Hardware.SetProfileOutcome, Hardware.Consume;
    Hardware.OneDevice(m, p);
  }

  lemma SignallingStep(s: System, moves: seq<Move>, t: System, acts: seq<Act>, sent: bool)
    requires Leads(s, moves, t, acts) && Attached(t) && t.w.pc.Signalling? && t.w.pc.rec.RecProfile?
    requires P.Step(t.w, P.SendSignal(sent)).m == t.w.m && P.Step(t.w, P.SendSignal(sent)).alive
    ensures var w := P.Step(t.w, P.SendSignal(sent));
            var u := t.(w := w, view := if sent then ProfileProperty(w.m) else t.view, direct := t.direct || sent);
            Leads(s, moves + [Daemon(P.SendSignal(sent), false)], u, acts + if sent then [DirectEmit] else []) && Attached(u)
  {
    hide P.Step, Leads, Reading, ProfileFile, ProfileProperty;
    LeadsOn(s, moves, t, acts, Daemon(P.SendSignal(sent), false));
  }

  /** The first three moves, through the worlds `w1` to `w3`. */
  lemma SetterWrites(s: System, value: string, p: PowerProfile, raised: bool, w1: P.World, w2: P.World, w3: P.World)
    requires Attached(s) && Hardware.SetProfileOutcome(s.w.m, p).Ok?
    requires Reading(Hardware.AfterSetProfile(s.w.m, p), s.file) != Reading(s.w.m, s.file) ==> raised
    requires w1 == P.Step(s.w, P.Call(true, P.SetProfile(value))) && w2 == P.Step(w1, P.HardwareWrite)
    requires w3 == P.Step(w2, P.Record)
    requires w1.m == s.w.m && w2.m == Hardware.AfterSetProfile(s.w.m, p) && w3.m == w2.m
    requires w1.alive && w2.alive && w3.alive
    ensures var t := s.(w := w3, pending := s.pending || raised);
            && Attached(t)
            && Leads(s, [Daemon(P.Call(true, P.SetProfile(value)), false)] + [Daemon(P.HardwareWrite, raised)]
                        + [Daemon(P.Record, false)], t, if raised then [Change(Some(p))] else [])
  {
    hide *;
    var call := [Daemon(P.Call(true, P.SetProfile(value)), false)];
    var acts: seq<Act> := if raised then [Change(Some(p))] else [];
    LeadsNowhere(s);
    SilentStep(s, [], s, [], P.Call(true, P.SetProfile(value)));
    assert [] + call == call && [] + acts == acts;
    WritingStep(s, call, s.(w := w1), [], p, raised);
    SilentStep(s, call + [Daemon(P.HardwareWrite, raised)], s.(w := w2, pending := s.pending || raised), acts, P.Record);
  }

  /** The last three. */
  lemma SetterCloses(s: System, save: Store.SaveFate, sent: bool, w4: P.World, w5: P.World, w6: P.World)
    requires Attached(s) && w4 == P.Step(s.w, P.WriteTemp(save)) && w5 == P.Step(w4, P.Rename(save))
    requires w6 == P.Step(w5, P.SendSignal(sent)) && w5.pc.Signalling? && w5.pc.rec.RecProfile?
    requires w4.m == s.w.m && w5.m == s.w.m && w6.m == s.w.m && w4.alive && w5.alive && w6.alive
    ensures var t := s.(w := w6, view := if sent then ProfileProperty(w6.m) else s.view, direct := s.direct || sent);
            && Attached(t)
            && Leads(s, [Daemon(P.WriteTemp(save), false)] + [Daemon(P.Rename(save), false)]
                        + [Daemon(P.SendSignal(sent), false)], t, if sent then [DirectEmit] else [])
  {
    hide *;
    var temp := [Daemon(P.WriteTemp(save), false)];
    var acts: seq<Act> := if sent then [DirectEmit] else [];
    LeadsNowhere(s);
    SilentStep(s, [], s, [], P.WriteTemp(save));
    assert [] + temp == temp && [] + acts == acts;
    SilentStep(s, temp, s.(w := w4), [], P.Rename(save));
    SignallingStep(s, temp + [Daemon(P.Rename(save), false)], s.(w := w5), [], sent);
  }

  /** Played through, the moves serve the request, and clients are told exactly if the caller is. */
  lemma SetterPlays(s: System, value: string, save: Store.SaveFate, raised: bool, sent: bool)
    requires Attached(s) && Takes(s.w, value)
    requires Reading(Hardware.AfterSetProfile(s.w.m, ProfileFromUser(value).value), s.file) != Reading(s.w.m, s.file) ==> raised
    ensures var w := P.Served(s.w, true, P.SetProfile(value), None, P.Closing(save, sent));
            var t := s.(w := w, pending := s.pending || raised, view := if sent then ProfileProperty(w.m) else s.view,
                        direct := s.direct || sent);
            && Attached(t) && w.pc == P.Idle && w.m == Hardware.AfterSetProfile(s.w.m, ProfileFromUser(value).value)
            && Leads(s, SetterMoves(value, save, raised, sent), t,
                     (if raised then [Change(ProfileFromUser(value))] else []) + if sent then [DirectEmit] else [])
  {
    var p := ProfileFromUser(value).value;
    assert Hardware.SetProfileOutcome(s.w.m, p).Ok?;
    hide *;
    var w1, w2, w3, w4, w5 := SetterWorlds(s.w, value, save, sent);
    var w6 := P.Step(w5, P.SendSignal(sent));
    SetterWrites(s, value, p, raised, w1, w2, w3);
    var t := s.(w := w3, pending := s.pending || raised);
    SetterCloses(t, save, sent, w4, w5, w6);
    LeadsThroughout(s, value, save, raised, sent, t, t.(w := w6, view := if sent then ProfileProperty(w6.m) else t.view,
                                                        direct := t.direct || sent), p);
  }

  lemma LeadsThroughout(s: System, value: string, save: Store.SaveFate, raised: bool, sent: bool, t: System, u: System,
                        p: PowerProfile)
    requires Leads(s, [Daemon(P.Call(true, P.SetProfile(value)), false)] + [Daemon(P.HardwareWrite, raised)]
                      + [Daemon(P.Record, false)], t, if raised then [Change(Some(p))] else [])
    requires Leads(t, [Daemon(P.WriteTemp(save), false)] + [Daemon(P.Rename(save), false)]
                      + [Daemon(P.SendSignal(sent), false)], u, if sent then [DirectEmit] else [])
    ensures Leads(s, SetterMoves(value, save, raised, sent), u,
                  (if raised then [Change(Some(p))] else []) + if sent then [DirectEmit] else [])
  {
    hide Leads;
    var first := [Daemon(P.Call(true, P.SetProfile(value)), false)] + [Daemon(P.HardwareWrite, raised)]
                 + [Daemon(P.Record, false)];
    var last := [Daemon(P.WriteTemp(save), false)] + [Daemon(P.Rename(save), false)] + [Daemon(P.SendSignal(sent), false)];
    LeadsThen(s, first, t, if raised then [Change(Some(p))] else [], last, u, if sent then [DirectEmit] else []);
    assert first + last == SetterMoves(value, save, raised, sent);
  }

  // ── and every run of the small protocol is one of the system's ────────────

  /** What Fn+Q leaves in the file. */
  function Content(to: Shown): string {
    match to case Some(p) => p.AsSysfs() + "\n" case None => ""
  }

  /** Fn+Q: the profile file, and nothing else, reads differently. */
  function FnQ(m: Machine, file: Path, to: Shown): Machine {
    m.(files := m.files[file := Content(to)])
  }

  /** The moves behind an act. A direct signal is that of SetProfile for the profile already active. */
  function Moves(s: System, a: Act): seq<Move> {
    match a
    case Change(to) => [Daemon(P.Environment(FnQ(s.w.m, s.file, to)), true)]
    case DirectEmit =>
      (match Reading(s.w.m, s.file)
       case Some(p) => SetterMoves(p.AsSysfs(), Store.Saved, false, true)
       case None => [])
    case Wake(ok) => [WakeUp(ok)]
    case Emit(sent) => [Signal(sent)]
  }

  function AllMoves(s: System, acts: seq<Act>): seq<Move>
    decreases |acts|
  {
    if acts == [] then [] else Moves(s, acts[0]) + AllMoves(Played(s, Moves(s, acts[0])), acts[1..])
  }

  /** An idle daemon, whatever it remembers, watching the selected device's file, which is there. */
  predicate Quiet(s: System) {
    Attached(s) && s.file in s.w.m.files && s.w.pc == P.Idle && !s.owed
  }

  /** The kernel takes every profile. */
  ghost predicate TakesAll(m: Machine, file: Path) {
    forall p: PowerProfile :: (file, p.AsSysfs()) !in m.refuse
  }

  /** Direct signals happen while the profile can be read. */
  ghost predicate Tellable(s: Net, acts: seq<Act>)
    decreases |acts|
  {
    acts != [] ==> (acts[0] == DirectEmit ==> s.hw.Some?) && Tellable(Next(s, acts[0]), acts[1..])
  }

  lemma ContentReads(to: Shown)
    ensures ProfileFromSysfs(Text.Trim(Content(to))) == to
  {
    match to {
      case Some(p) => ProfileReparses(p);
      case None =>
        assert Text.Trim("") == "";
        hide ProfileFromSysfs, Text.Trim;
        match ProfileFromSysfs("") {
          case Some(q) => ProfileSysfsExact("", q);
          case None =>
        }
    }
  }

  lemma FnQReads(m: Machine, file: Path, to: Shown)
    requires ProfileFile(m) == Some(file) && file in m.files
    ensures ProfileFile(FnQ(m, file, to)) == Some(file)
    ensures Reading(FnQ(m, file, to), file) == to
  {
    hide Device, ProfileFromSysfs, Text.Trim, Content;
    DeviceFrame(m, FnQ(m, file, to), {file});
    ContentReads(to);
  }

  lemma FnQFollows(s: System, to: Shown)
    requires Quiet(s)
    ensures var mv := Daemon(P.Environment(FnQ(s.w.m, s.file, to)), true);
            Quiet(Do(s, mv)) && Do(s, mv).w.m.refuse == s.w.m.refuse && Leads(s, [mv], Do(s, mv), [Change(to)])
  {
    var mv := Daemon(P.Environment(FnQ(s.w.m, s.file, to)), true);
    FnQKeeps(s.w.m, s.file, to);
    hide FnQ, Reading, ProfileFile, Leads;
    FnQReads(s.w.m, s.file, to);
    LeadsByOne(s, mv);
  }

  lemma FnQKeeps(m: Machine, file: Path, to: Shown)
    ensures file in FnQ(m, file, to).files && FnQ(m, file, to).refuse == m.refuse
  {
  }

  /** The moves that leave sysfs and the daemon alone. */
  lemma QuietFollows(s: System, mv: Move)
    requires Quiet(s) && (mv.WakeUp? || mv.Signal?)
    ensures Quiet(Do(s, mv)) && Do(s, mv).w == s.w && Leads(s, [mv], Do(s, mv), Shadow(s, mv))
  {
    hide Reading, ProfileProperty, ProfileFile, P.Step, Leads;
    LeadsByOne(s, mv);
  }

  lemma SetterTakes(s: System, p: PowerProfile)
    requires Quiet(s) && TakesAll(s.w.m, s.file)
    ensures Takes(s.w, p.AsSysfs()) && ProfileFromUser(p.AsSysfs()) == Some(p)
    ensures s.file in Hardware.AfterSetProfile(s.w.m, p).files
    ensures Hardware.AfterSetProfile(s.w.m, p).refuse == s.w.m.refuse
    ensures Reading(Hardware.AfterSetProfile(s.w.m, p), s.file) == Some(p)
  {
    hide Device, ProfileFromUser, ProfileFromSysfs, Reading, Text.Trim;
    ProfileReparses(p);
    SetReads(s.w.m, s.file, p);
  }

  lemma TellingFollows(s: System, p: PowerProfile)
    requires Quiet(s) && TakesAll(s.w.m, s.file) && Reading(s.w.m, s.file) == Some(p)
    ensures var moves := SetterMoves(p.AsSysfs(), Store.Saved, false, true);
            var t := Played(s, moves);
            Quiet(t) && t.w.m.refuse == s.w.m.refuse && Leads(s, moves, t, [DirectEmit])
  {
    SetterTakes(s, p);
    hide Takes, Reading, TakesAll, P.Served, ProfileProperty, ProfileFile, Hardware.AfterSetProfile, ProfileFromUser, SetterMoves;
    SetterPlays(s, p.AsSysfs(), Store.Saved, false, true);
    assert [] + [DirectEmit] == [DirectEmit];
  }

  lemma MovesFollow(s: System, a: Act)
    requires Quiet(s) && (a == DirectEmit ==> TakesAll(s.w.m, s.file) && Abs(s).hw.Some?)
    ensures var t := Played(s, Moves(s, a));
            Quiet(t) && t.file == s.file && t.w.m.refuse == s.w.m.refuse && Leads(s, Moves(s, a), t, [a])
  {
    hide Quiet, TakesAll, FnQ, Leads, SetterMoves, Reading, Played, P.Step, ProfileProperty;
    match a {
      case Change(to) =>
        FnQFollows(s, to);
        LeadsTo(s, Moves(s, a), Do(s, Moves(s, a)[0]), [a]);
      case DirectEmit =>
        TellingFollows(s, Reading(s.w.m, s.file).value);
        SameFile(s, Moves(s, a));
      case Wake(ok) =>
        NotOwed(s);
        QuietFollows(s, WakeUp(ok));
        LeadsTo(s, Moves(s, a), Do(s, WakeUp(ok)), [a]);
      case Emit(sent) =>
        QuietFollows(s, Signal(sent));
        LeadsTo(s, Moves(s, a), Do(s, Signal(sent)), [a]);
    }
  }

  lemma LeadsTo(s: System, moves: seq<Move>, t: System, acts: seq<Act>)
    requires Leads(s, moves, t, acts)
    ensures t == Played(s, moves)
  {
  }

  lemma NotOwed(s: System)
    requires Quiet(s)
    ensures !s.owed && Attached(s)
  {
  }

  lemma {:induction false} SameFile(s: System, moves: seq<Move>)
    ensures Played(s, moves).file == s.file
    decreases |moves|
  {
    hide P.Step, ProfileProperty, Reading;
    if moves != [] { SameFile(Do(s, moves[0]), moves[1..]); }
  }

  /** Whatever the small protocol can do, the whole system can, from any quiet moment on and with no more
      than Fn+Q presses and setters the kernel takes. */
  lemma {:induction false} Realises(s: System, acts: seq<Act>)
    requires Quiet(s) && Tellable(Abs(s), acts) && (DirectEmit in acts ==> TakesAll(s.w.m, s.file))
    ensures var moves := AllMoves(s, acts);
            && Steady(s, moves) && Shadows(s, moves) == acts
            && Quiet(Played(s, moves)) && Abs(Played(s, moves)) == After(Abs(s), acts)
            && Played(s, moves).w.m.refuse == s.w.m.refuse
    decreases |acts|
  {
    RealisedSteps(s, acts);
    hide *;
    Simulates(s, AllMoves(s, acts));
  }

  lemma {:induction false} RealisedSteps(s: System, acts: seq<Act>)
    requires Quiet(s) && Tellable(Abs(s), acts) && (DirectEmit in acts ==> TakesAll(s.w.m, s.file))
    ensures Leads(s, AllMoves(s, acts), Played(s, AllMoves(s, acts)), acts) && Quiet(Played(s, AllMoves(s, acts)))
    ensures Steady(s, AllMoves(s, acts)) && Shadows(s, AllMoves(s, acts)) == acts
    ensures Played(s, AllMoves(s, acts)).w.m.refuse == s.w.m.refuse
    decreases |acts|
  {
    NotOwed(s);
    if acts == [] {
      LeadsNowhere(s);
    } else {
      var a, rest := acts[0], acts[1..];
      assert acts == [a] + rest;
      MovesFollow(s, a);
      var moves := Moves(s, a);
      var t := Played(s, moves);
      OneAct(s, a, t);
      assert AllMoves(s, acts) == moves + AllMoves(t, rest);
      assert Tellable(Abs(t), rest);
      hide Quiet, TakesAll, Leads, Moves, Played, AllMoves, Abs, Next;
      SameRefusals(s.w.m, t.w.m, s.file);
      RealisedSteps(t, rest);
      var u := Played(t, AllMoves(t, rest));
      LeadsThen(s, moves, t, [a], AllMoves(t, rest), u, rest);
      LeadsTo(s, AllMoves(s, acts), u, acts);
      LeadsMeans(s, AllMoves(s, acts), u, acts);
    }
  }

  lemma LeadsMeans(s: System, moves: seq<Move>, t: System, acts: seq<Act>)
    requires Leads(s, moves, t, acts)
    ensures Steady(s, moves) && Shadows(s, moves) == acts
  {
  }

  lemma SameRefusals(m: Machine, m': Machine, file: Path)
    requires m'.refuse == m.refuse
    ensures TakesAll(m', file) == TakesAll(m, file)
  {
  }

  lemma OneAct(s: System, a: Act, t: System)
    requires Leads(s, Moves(s, a), t, [a])
    ensures Abs(t) == Next(Abs(s), a)
  {
    LeadsMeans(s, Moves(s, a), t, [a]);
    LeadsTo(s, Moves(s, a), t, [a]);
    hide Moves, Abs, Played, Shadows, Next;
    Simulates(s, Moves(s, a));
    Peel(ReadsWork, Abs(s), a, []);
    assert [a] + [] == [a];
  }

  // ── changes lost ──────────────────────────────────────────────────────────

  /** A run that keeps every rule but those in `Broken(which)`. */
  function Losing(a: PowerProfile, b: PowerProfile, c: PowerProfile, which: Rule): seq<Act> {
    match which
    case FreshSignal => SwappedSignal(b, c)
    case NoStaleWake => SignalledAndBack(a, b)
    case NoReturn => SignalledAndBack(a, b)
    case ReadsWork => [Change(Some(b)), Wake(false)] + []
  }

  function Broken(which: Rule): set<Rule> {
    if which in {NoReturn, NoStaleWake} then {NoReturn, NoStaleWake} else {which}
  }

  lemma LosingLoses(s: Net, a: PowerProfile, b: PowerProfile, c: PowerProfile, which: Rule)
    requires AtRest(s, a) && a != b && b != c
    ensures var t := After(s, Losing(a, b, c, which)); !Current(t) && t.view.Some? && t.hw.Some?
    ensures forall rule :: Along(rule, s, Losing(a, b, c, which)) <==> rule !in Broken(which)
  {
    hide After, AtRest, SwappedSignal, SignalledAndBack, Along;
    forall rule ensures Along(rule, s, Losing(a, b, c, which)) <==> rule !in Broken(which) {
      match which {
        case FreshSignal => LiveReadLoses(s, a, b, c, rule);
        case NoStaleWake => DirectSignalLoses(s, a, b, rule);
        case NoReturn => DirectSignalLoses(s, a, b, rule);
        case ReadsWork => UnreadableLoses(s, a, b, rule);
      }
    }
    LiveReadLoses(s, a, b, c, which);
    DirectSignalLoses(s, a, b, which);
    UnreadableLoses(s, a, b, which);
  }

  lemma LosingTellable(s: Net, a: PowerProfile, b: PowerProfile, c: PowerProfile, which: Rule)
    requires AtRest(s, a) && a != b && b != c
    ensures Tellable(s, Losing(a, b, c, which))
    ensures DirectEmit in Losing(a, b, c, which) ==> which in {NoReturn, NoStaleWake}
  {
    TellableWithout(s, SwappedSignal(b, c));
    TellableWithout(s, [Change(Some(b)), Wake(false)] + []);
    var told := Next(Next(s, Change(Some(b))), DirectEmit);
    TellableWithout(told, [Change(Some(a)), Wake(true)] + []);
    var acts := SignalledAndBack(a, b);
    assert acts[1..][1..] == [Change(Some(a)), Wake(true)] + [];
    assert Tellable(Next(s, Change(Some(b))), acts[1..]);
  }

  lemma {:induction false} TellableWithout(s: Net, acts: seq<Act>)
    requires DirectEmit !in acts
    ensures Tellable(s, acts)
    decreases |acts|
  {
    if acts != [] { TellableWithout(Next(s, acts[0]), acts[1..]); }
  }

  /** So wherever a quiet system stands at `a`, whatever its daemon remembers, it has runs that keep every
      rule but one, counting the two on returns as one, and lose a change: at their end clients see
      another profile than the hardware is in, and nothing is on its way. */
  lemma SystemLoses(s: System, a: PowerProfile, b: PowerProfile, c: PowerProfile, which: Rule)
    requires Quiet(s) && AtRest(Abs(s), a) && a != b && b != c
    requires which in {NoReturn, NoStaleWake} ==> TakesAll(s.w.m, s.file)
    ensures var moves := AllMoves(s, Losing(a, b, c, which));
            && Steady(s, moves) && !UpToDate(Played(s, moves))
            && forall rule :: Along(rule, Abs(s), Shadows(s, moves)) <==> rule !in Broken(which)
  {
    hide *;
    LosingTellable(Abs(s), a, b, c, which);
    Realises(s, Losing(a, b, c, which));
    LosingLoses(Abs(s), a, b, c, which);
    var t := Played(s, AllMoves(s, Losing(a, b, c, which)));
    NotOwed(t);
    UpToDateIsCurrent(t);
  }

  // ── another handler takes over ────────────────────────────────────────────

  /** A watcher whose file is no longer the selected device's hears nothing. The firmware changes the
      profile clients read, no event has to come, and no number of wake-ups tells them. */
  lemma DetachedLoses(s: System, selected: Path, to: PowerProfile)
    requires ProfileFile(s.w.m) == Some(selected) && selected in s.w.m.files && selected != s.file
    requires !s.pending && !s.emitting && s.view != Some(to)
    ensures var mv := Daemon(P.Environment(FnQ(s.w.m, selected, Some(to))), false);
            && Notified(s, mv) && !UpToDate(Do(s, mv))
            && forall ok :: Do(Do(s, mv), WakeUp(ok)) == Do(s, mv)
  {
    hide Reading, ProfileFile, ProfileProperty, P.Step, FnQ;
    var m' := FnQ(s.w.m, selected, Some(to));
    assert Reading(m', s.file) == Reading(s.w.m, s.file) by { OtherFile(s.w.m, selected, Some(to), s.file); }
    FnQReads(s.w.m, selected, Some(to));
    assert ProfileProperty(m') == Some(to) by { PropertyReads(m', selected); }
    FnQStep(s.w, m');
  }

  lemma FnQStep(w: P.World, after: Machine)
    ensures P.Step(w, P.Environment(after)) == w.(m := after)
  {
  }

  lemma OtherFile(m: Machine, file: Path, to: Shown, other: Path)
    requires other != file
    ensures Reading(FnQ(m, file, to), other) == Reading(m, other)
  {
    hide Content, Text.Trim, ProfileFromSysfs;
  }
}
