/** Do clients end up showing the profile the hardware is in? The watcher, the firmware and the
    daemon's own emissions as one small protocol. */
module Converge {
  import opened Wrappers
  import opened Names
  import opened Watch

  type Shown = Option<PowerProfile>

  /** `hw` is what reading the profile gives (None: unreadable), `pending` the kernel's event flag,
      `last` the watcher's last reported value, `view` what clients were last told, `emitting` a
      reported change whose signal is still to be sent. `direct` observes that a signal was sent
      other than by the watcher since the last wake-up. */
  datatype Net = Net(hw: Shown, pending: bool, last: Shown, view: Shown, emitting: bool, direct: bool)

  datatype Act =
    | Change(to: Shown)  // Fn+Q, or the daemon's own write: either raises the event
    | DirectEmit         // SetProfile and resume signal the profile themselves
    | Wake(ok: bool)     // whether the re-read gets as far as the file's content
    | Emit(sent: bool)   // the signal for a report, and whether it can be sent

  predicate Woken(s: Net) {
    s.pending && !s.emitting
  }

  /** What a wake-up reads: nothing if the read fails or the content is no profile's. */
  function Reread(s: Net, ok: bool): Shown {
    if ok then s.hw else None
  }

  /** Signals always carry the profile as read when they are sent. */
  function Next(s: Net, a: Act): Net {
    match a
    case Change(to) => s.(hw := to, pending := true)
    case DirectEmit => s.(view := s.hw, direct := true)
    case Wake(ok) =>
      if !Woken(s) then s
      else
        var read := s.(pending := false, direct := false);
        if Reports(s, ok) then read.(last := s.hw, emitting := true) else read
    case Emit(sent) => if s.emitting then s.(view := if sent then s.hw else s.view, emitting := false) else s
  }

  /** A wake-up here is one the watcher reports. */
  predicate Reports(s: Net, ok: bool) {
    Woken(s) && Noticed(s.last, Reread(s, ok)).Some?
  }

  function After(s: Net, acts: seq<Act>): Net
    decreases |acts|
  {
    if acts == [] then s else After(Next(s, acts[0]), acts[1..])
  }

  lemma {:induction false} AfterThen(s: Net, acts: seq<Act>, more: seq<Act>)
    ensures After(s, acts + more) == After(After(s, acts), more)
    decreases |acts|
  {
    if acts == [] {
      assert acts + more == more;
    } else {
      assert (acts + more)[1..] == acts[1..] + more;
      AfterThen(Next(s, acts[0]), acts[1..], more);
    }
  }

  /** Clients show the hardware's profile, or something is still on its way to them. */
  predicate Current(s: Net) {
    s.view == s.hw || s.pending || s.emitting
  }

  /** A wake-up is swallowed, or the signal for the last change fails, while clients show something else. */
  predicate Loses(s: Net, a: Act) {
    match a
    case Wake(ok) => Woken(s) && !Reports(s, ok) && s.view != s.hw
    case Emit(sent) => s.emitting && !s.pending && !sent && s.view != s.hw
    case _ => false
  }

  ghost predicate AlwaysCurrent(s: Net, acts: seq<Act>)
    decreases |acts|
  {
    Current(s) && (acts != [] ==> AlwaysCurrent(Next(s, acts[0]), acts[1..]))
  }

  ghost predicate NeverLoses(s: Net, acts: seq<Act>)
    decreases |acts|
  {
    acts != [] ==> !Loses(s, acts[0]) && NeverLoses(Next(s, acts[0]), acts[1..])
  }

  /** Exactly when clients stay current, over every interleaving: never a wake-up whose value equals
      the last reported one, or cannot be read, and never a last signal that fails, while clients show
      something else. */
  lemma {:induction false} CurrentExactly(s: Net, acts: seq<Act>)
    requires Current(s)
    ensures AlwaysCurrent(s, acts) <==> NeverLoses(s, acts)
    decreases |acts|
  {
    if acts != [] {
      assert Current(Next(s, acts[0])) <==> !Loses(s, acts[0]);
      if Current(Next(s, acts[0])) {
        CurrentExactly(Next(s, acts[0]), acts[1..]);
      }
    }
  }

  // ── conditions on what happens around the watcher ─────────────────────────

  datatype Rule =
    | FreshSignal   // a report's signal is sent and carries the value the watcher read
    | NoStaleWake   // after a direct signal, a wake-up back at `last` finds clients there too
    | NoReturn      // after a direct signal, no return to `last` that clients do not already show
    | ReadsWork     // a wake-up's read gives a profile

  predicate Obeys(rule: Rule, s: Net, a: Act) {
    match rule
    case FreshSignal => a.Emit? && s.emitting ==> a.sent && s.hw == s.last
    case NoStaleWake => a.Wake? && Woken(s) && s.direct && s.hw == s.last ==> s.view == s.last
    case NoReturn => a.Change? && s.direct && !s.emitting && a.to.Some? && a.to == s.last ==> s.view == s.last
    case ReadsWork => a.Wake? && Woken(s) ==> Reread(s, a.ok).Some?
  }

  ghost predicate Along(rule: Rule, s: Net, acts: seq<Act>)
    decreases |acts|
  {
    acts != [] ==> Obeys(rule, s, acts[0]) && Along(rule, Next(s, acts[0]), acts[1..])
  }

  /** Either the watcher has reported nothing yet, or it agrees with clients up to what is pending. */
  predicate InStep(s: Net) {
    || (s.last.None? && !s.emitting)
    || (&& (s.emitting && !s.pending ==> s.last == s.hw)
        && (!s.emitting && !s.pending ==> s.view == s.hw && s.last == s.view)
        && (!s.emitting && s.pending && !s.direct ==> s.view == s.last))
  }

  lemma InStepKept(s: Net, a: Act)
    requires InStep(s) && Obeys(FreshSignal, s, a) && Obeys(NoStaleWake, s, a) && Obeys(ReadsWork, s, a)
    ensures InStep(Next(s, a)) && (s.last.Some? ==> Next(s, a).last.Some?)
  {
  }

  /** Convergence. From a fresh watcher on, if a report's signal is sent and carries what the watcher read, no
      direct signal is followed by a wake-up that finds the profile back at `last` with clients
      elsewhere, and woken reads succeed, then from the first report on clients show the
      hardware's profile, and so does `last`, unless an event is pending or a signal on its way. */
  lemma {:induction false} Converges(s: Net, acts: seq<Act>)
    requires InStep(s)
    requires Along(FreshSignal, s, acts) && Along(NoStaleWake, s, acts) && Along(ReadsWork, s, acts)
    ensures InStep(After(s, acts)) && (s.last.Some? ==> After(s, acts).last.Some?)
    ensures var t := After(s, acts);
            t.last.Some? ==> Current(t) && (t.last == t.view || t.pending || t.emitting)
    decreases |acts|
  {
    if acts != [] {
      InStepKept(s, acts[0]);
      Converges(Next(s, acts[0]), acts[1..]);
    }
  }

  /** If a wake-up now would find the profile back at `last`, clients show that already. */
  predicate Settled(s: Net) {
    !s.emitting && s.pending && s.direct && s.hw.Some? && s.hw == s.last ==> s.view == s.hw
  }

  /** Surroundings that, after a direct signal, never go back to `last` behind the clients' backs keep
      the rule on wake-ups. A setter or a resume that stays at `last` is no such return. */
  lemma {:induction false} NoReturnSuffices(s: Net, acts: seq<Act>)
    requires Settled(s) && Along(FreshSignal, s, acts) && Along(NoReturn, s, acts) && Along(ReadsWork, s, acts)
    ensures Along(NoStaleWake, s, acts)
    decreases |acts|
  {
    if acts != [] {
      assert Settled(Next(s, acts[0]));
      NoReturnSuffices(Next(s, acts[0]), acts[1..]);
    }
  }

  /** A report puts everything right: whatever state it is made in and whatever was lost before, from
      then on the conclusion of convergence holds under its rules. */
  lemma ReportHeals(s: Net, before: seq<Act>, ok: bool, after: seq<Act>)
    requires Reports(After(s, before), ok)
    requires var t := Next(After(s, before), Wake(ok));
             Along(FreshSignal, t, after) && Along(NoStaleWake, t, after) && Along(ReadsWork, t, after)
    ensures var u := After(s, before + ([Wake(ok)] + after));
            u.last.Some? && Current(u) && (u.last == u.view || u.pending || u.emitting)
  {
    AfterThen(s, before, [Wake(ok)] + after);
    Peel(ReadsWork, After(s, before), Wake(ok), after);
    Converges(Next(After(s, before), Wake(ok)), after);
  }

  /** Without one nothing is put right: clients left at `p` stay there, with nothing pending, through
      a change to `p` and back that is over before the watcher wakes. */
  lemma NoReportNoHealing(s: Net, a: PowerProfile, p: PowerProfile)
    requires s == Net(Some(a), false, Some(a), Some(p), false, false)
    ensures After(s, [Change(Some(p)), Change(Some(a))] + ([Wake(true), Emit(true)] + [])) == s
  {
    Peel2(ReadsWork, s, Change(Some(p)), Change(Some(a)), [Wake(true), Emit(true)] + []);
    Peel2(ReadsWork, s.(pending := true), Wake(true), Emit(true), []);
  }

  lemma Peel(rule: Rule, s: Net, a: Act, rest: seq<Act>)
    ensures After(s, [a] + rest) == After(Next(s, a), rest)
    ensures Along(rule, s, [a] + rest) <==> Obeys(rule, s, a) && Along(rule, Next(s, a), rest)
  {
    assert ([a] + rest)[1..] == rest;
  }

  lemma Peel2(rule: Rule, s: Net, a: Act, b: Act, rest: seq<Act>)
    ensures After(s, [a, b] + rest) == After(Next(Next(s, a), b), rest)
    ensures Along(rule, s, [a, b] + rest) <==>
              Obeys(rule, s, a) && Obeys(rule, Next(s, a), b) && Along(rule, Next(Next(s, a), b), rest)
  {
    assert [a, b] + rest == [a] + ([b] + rest);
    Peel(rule, s, a, [b] + rest);
    Peel(rule, Next(s, a), b, rest);
  }

  /** The watcher has reported the profile the hardware is in and clients know it. */
  predicate AtRest(s: Net, a: PowerProfile) {
    s == Net(Some(a), false, Some(a), Some(a), false, false)
  }

  /** The ordinary resume, or a setter asked for the profile already active, keeps all the rules and
      ends where it began. */
  lemma StayingIsAllowed(s: Net, a: PowerProfile, rule: Rule)
    requires AtRest(s, a)
    ensures Along(rule, s, [Change(Some(a)), DirectEmit] + ([Wake(true)] + []))
    ensures After(s, [Change(Some(a)), DirectEmit] + ([Wake(true)] + [])) == s
  {
    Peel2(rule, s, Change(Some(a)), DirectEmit, [Wake(true)] + []);
    Peel(rule, s.(pending := true, direct := true), Wake(true), []);
  }

  /** So does an ordinary press of Fn+Q, which ends with everyone at the new profile. */
  lemma PressingIsAllowed(s: Net, a: PowerProfile, b: PowerProfile, rule: Rule)
    requires AtRest(s, a) && a != b
    ensures var acts := [Change(Some(b)), Wake(true)] + ([Emit(true)] + []);
            Along(rule, s, acts) && AtRest(After(s, acts), b)
  {
    Peel2(rule, s, Change(Some(b)), Wake(true), [Emit(true)] + []);
    Peel(rule, Net(Some(b), false, Some(b), Some(a), true, false), Emit(true), []);
  }

  /** So does a profile set through the daemon. */
  lemma SettingIsAllowed(s: Net, a: PowerProfile, b: PowerProfile, rule: Rule)
    requires AtRest(s, a) && a != b
    ensures var acts := [Change(Some(b)), DirectEmit] + ([Wake(true), Emit(true)] + []);
            Along(rule, s, acts) && AtRest(After(s, acts), b)
  {
    Peel2(rule, s, Change(Some(b)), DirectEmit, [Wake(true), Emit(true)] + []);
    Peel2(rule, Net(Some(b), true, Some(a), Some(b), false, true), Wake(true), Emit(true), []);
  }

  /** And a press right after that, to yet another profile. */
  lemma PressingOnIsAllowed(s: Net, a: PowerProfile, b: PowerProfile, c: PowerProfile, rule: Rule)
    requires AtRest(s, a) && a != b && a != c
    ensures var acts := [Change(Some(b)), DirectEmit] + ([Change(Some(c)), Wake(true)] + ([Emit(true)] + []));
            Along(rule, s, acts) && AtRest(After(s, acts), c)
  {
    Peel2(rule, s, Change(Some(b)), DirectEmit, [Change(Some(c)), Wake(true)] + ([Emit(true)] + []));
    Peel2(rule, Net(Some(b), true, Some(a), Some(b), false, true), Change(Some(c)), Wake(true), [Emit(true)] + []);
    Peel(rule, Net(Some(c), false, Some(c), Some(b), true, false), Emit(true), []);
  }

  /** What the firmware does to a signal that re-reads the profile. */
  function SwappedSignal(b: PowerProfile, c: PowerProfile): seq<Act> {
    [Change(Some(b)), Wake(true)] + ([Change(Some(c)), Emit(true)] + ([Change(Some(b)), Wake(true)] + []))
  }

  /** Fresh signals are needed. With `b` reported but not yet signalled, a passing `c` reaches the
      clients and the return to `b` is swallowed. */
  lemma LiveReadLoses(s: Net, a: PowerProfile, b: PowerProfile, c: PowerProfile, rule: Rule)
    requires AtRest(s, a) && a != b && b != c
    ensures Along(rule, s, SwappedSignal(b, c)) <==> rule != FreshSignal
    ensures After(s, SwappedSignal(b, c)) == Net(Some(b), false, Some(b), Some(c), false, false)
    ensures !Current(After(s, SwappedSignal(b, c)))
  {
    var s1 := Net(Some(b), false, Some(b), Some(a), true, false);
    var s2 := Net(Some(c), true, Some(b), Some(c), false, false);
    Peel2(rule, s, Change(Some(b)), Wake(true), [Change(Some(c)), Emit(true)] + ([Change(Some(b)), Wake(true)] + []));
    Peel2(rule, s1, Change(Some(c)), Emit(true), [Change(Some(b)), Wake(true)] + []);
    Peel2(rule, s2, Change(Some(b)), Wake(true), []);
  }

  /** Nor must the signal fail: then clients keep `a` with nothing on its way. */
  lemma UnsentLoses(s: Net, a: PowerProfile, b: PowerProfile, rule: Rule)
    requires AtRest(s, a) && a != b
    ensures Along(rule, s, [Change(Some(b)), Wake(true)] + ([Emit(false)] + [])) <==> rule != FreshSignal
    ensures After(s, [Change(Some(b)), Wake(true)] + ([Emit(false)] + [])) == Net(Some(b), false, Some(b), Some(a), false, false)
    ensures !Current(After(s, [Change(Some(b)), Wake(true)] + ([Emit(false)] + [])))
  {
    Peel2(rule, s, Change(Some(b)), Wake(true), [Emit(false)] + []);
    Peel(rule, Net(Some(b), false, Some(b), Some(a), true, false), Emit(false), []);
  }

  function SignalledAndBack(a: PowerProfile, b: PowerProfile): seq<Act> {
    [Change(Some(b)), DirectEmit] + ([Change(Some(a)), Wake(true)] + [])
  }

  /** So is not returning: after a direct signal of `b`, a return to the last reported `a` before
      the wake-up is swallowed and clients keep `b`. */
  lemma DirectSignalLoses(s: Net, a: PowerProfile, b: PowerProfile, rule: Rule)
    requires AtRest(s, a) && a != b
    ensures Along(rule, s, SignalledAndBack(a, b)) <==> rule !in {NoReturn, NoStaleWake}
    ensures After(s, SignalledAndBack(a, b)) == Net(Some(a), false, Some(a), Some(b), false, false)
    ensures !Current(After(s, SignalledAndBack(a, b)))
  {
    var s1 := Net(Some(b), true, Some(a), Some(b), false, true);
    Peel2(rule, s, Change(Some(b)), DirectEmit, [Change(Some(a)), Wake(true)] + []);
    Peel2(rule, s1, Change(Some(a)), Wake(true), []);
  }

  /** And so are reads that work: the event is spent on a read that fails while the file holds `b`, and
      clients keep `a` with nothing on its way. */
  lemma UnreadableLoses(s: Net, a: PowerProfile, b: PowerProfile, rule: Rule)
    requires AtRest(s, a) && a != b
    ensures Along(rule, s, [Change(Some(b)), Wake(false)] + []) <==> rule != ReadsWork
    ensures After(s, [Change(Some(b)), Wake(false)] + []) == Net(Some(b), false, Some(a), Some(a), false, false)
    ensures !Current(After(s, [Change(Some(b)), Wake(false)] + []))
  {
    Peel2(rule, s, Change(Some(b)), Wake(false), []);
  }
}
