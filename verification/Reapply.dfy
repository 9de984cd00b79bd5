/** Reapplying the remembered settings, at start and after resume. */
module Reapply {
  import opened Wrappers
  import opened Text
  import opened Names
  import opened Sysfs
  import opened Discovery
  import opened Battery
  import opened Attrs
  import opened Kernel
  import opened Hardware
  import opened Store

  function ReapplyProfile(m: Machine, st: State): Machine {
    match st.profile
    case None => m
    case Some(s) => match ProfileFromSysfs(s) case Some(p) => AfterSetProfile(m, p) case None => m
  }

  function ReapplyMode(m: Machine, st: State): Machine {
    match st.batteryMode
    case None => m
    case Some(s) => match ChargeFromSysfs(s) case Some(mode) => AfterSetMode(m, mode) case None => m
  }

  function ReapplyLimit(m: Machine, key: string, watts: u32): Machine {
    match PptFromKey(key) case Some(a) => AfterWriteLimit(m, a.DirName(), watts) case None => m
  }

  /** Limits are written one by one; each failure leaves the others to go on. */
  function ReapplyLimits(m: Machine, ppt: map<string, u32>, order: seq<string>): Machine
    requires forall k | k in order :: k in ppt
  {
    if order == [] then m
    else
      var k := order[|order| - 1];
      ReapplyLimit(ReapplyLimits(m, ppt, order[..|order| - 1]), k, ppt[k])
  }

  /** `order` is one way to walk the map: every key once. */
  predicate Enumerates(order: seq<string>, ppt: map<string, u32>) {
    multiset(order) == multiset(ppt.Keys)
  }

  ghost predicate NoneTwice(order: seq<string>) {
    forall k :: multiset(order)[k] <= 1
  }

  lemma WalkedKeys(order: seq<string>, ppt: map<string, u32>)
    requires Enumerates(order, ppt)
    ensures forall k :: k in order <==> k in ppt
    ensures NoneTwice(order)
  {
    forall k ensures k in order <==> k in ppt {
      assert k in order <==> k in multiset(order);
      assert k in multiset(ppt.Keys) <==> k in ppt.Keys;
    }
  }

  /** Every sequence with each key once is such a walk. */
  lemma EnumeratesExactly(order: seq<string>, ppt: map<string, u32>)
    ensures Enumerates(order, ppt) <==> NoneTwice(order) && forall k :: k in order <==> k in ppt
  {
    if Enumerates(order, ppt) { WalkedKeys(order, ppt); }
    if NoneTwice(order) && forall k :: k in order <==> k in ppt {
      forall k ensures multiset(order)[k] == multiset(ppt.Keys)[k] {
        assert k in order <==> multiset(order)[k] > 0;
      }
    }
  }

  function Reapplied(m: Machine, st: State, order: seq<string>): Machine
    requires Enumerates(order, st.ppt)
  {
    WalkedKeys(order, st.ppt);
    ReapplyLimits(ReapplyMode(ReapplyProfile(m, st), st), st.ppt, order)
  }

  // ── the limits, all at once ───────────────────────────────────────────────

  predicate Writable(m: Machine, dir: string, watts: u32) {
    WriteLimitOutcome(m, dir, watts).Ok?
  }

  function LimitFiles(wants: map<string, u32>): set<Path> {
    set d | d in wants :: CurrentValue(d)
  }

  /** The wanted limits, by directory, that `m` would accept, written side by side. */
  function Overlay(m: Machine, wants: map<string, u32>): Machine {
    m.(files := map p | p in m.files ::
      if p.FirmwareAttr? && p.leaf == "current_value" && p.dir in wants && Writable(m, p.dir, wants[p.dir])
      then Print(wants[p.dir]) + "\n" else m.files[p])
  }

  lemma OverlayFrame(m: Machine, wants: map<string, u32>)
    ensures OnlyChanged(m, Overlay(m, wants), LimitFiles(wants))
    ensures Device(Overlay(m, wants)) == Device(m)
    ensures GetProfile(Overlay(m, wants)) == GetProfile(m)
  {
    forall p | p in m.files && p !in LimitFiles(wants) ensures Overlay(m, wants).files[p] == m.files[p] {
      if p.FirmwareAttr? && p.leaf == "current_value" && p.dir in wants { assert p == CurrentValue(p.dir); }
    }
    ProfileFrame(m, Overlay(m, wants), LimitFiles(wants));
  }

  /** The overlay as the reader of one attribute sees it. */
  lemma OverlayReads(m: Machine, wants: map<string, u32>, dir: string)
    ensures var r, r' := ReadByName(m, dir), ReadByName(Overlay(m, wants), dir);
            if dir in wants && Writable(m, dir, wants[dir])
            then r.Ok? && r' == Ok(r.value.(current := wants[dir])) else r' == r
  {
    OverlayFrame(m, wants);
    if dir in wants && Writable(m, dir, wants[dir]) {
      ReadUpdated(m, Overlay(m, wants), LimitFiles(wants), dir, wants[dir]);
    } else {
      ReadSame(m, Overlay(m, wants), LimitFiles(wants), dir);
    }
  }

  /** Writing limits does not change which limits can be written. */
  lemma OverlayWritable(m: Machine, wants: map<string, u32>, dir: string, watts: u32)
    ensures Writable(Overlay(m, wants), dir, watts) == Writable(m, dir, watts)
  {
    OverlayFrame(m, wants);
    OverlayReads(m, wants, dir);
    WritableSame(m, Overlay(m, wants), LimitFiles(wants), dir, watts);
  }

  /** One more limit written is one more entry in the overlay. */
  lemma OverlayStep(m: Machine, wants: map<string, u32>, dir: string, watts: u32)
    requires dir !in wants
    ensures AfterWriteLimit(Overlay(m, wants), dir, watts) == Overlay(m, wants[dir := watts])
  {
    var m1 := Overlay(m, wants);
    OverlayWritable(m, wants, dir, watts);
    WriteThenRead(m1, dir, watts);
    if Writable(m1, dir, watts) { WrittenFrame(m1, CurrentValue(dir), Print(watts)); }
    OneMore(m, wants, dir, watts, AfterWriteLimit(m1, dir, watts));
  }

  lemma OneMore(m: Machine, wants: map<string, u32>, dir: string, watts: u32, m2: Machine)
    requires dir !in wants && OnlyChanged(Overlay(m, wants), m2, {CurrentValue(dir)})
    requires if Writable(m, dir, watts)
             then CurrentValue(dir) in m.files && m2.files[CurrentValue(dir)] == Print(watts) + "\n"
             else m2 == Overlay(m, wants)
    ensures m2 == Overlay(m, wants[dir := watts])
  {
    hide Writable;
    assert m2.files == Overlay(m, wants[dir := watts]).files;
  }

  lemma OverlayTwice(m: Machine, wants: map<string, u32>)
    ensures Overlay(Overlay(m, wants), wants) == Overlay(m, wants)
  {
    var m1 := Overlay(m, wants);
    forall d | d in wants ensures Writable(m1, d, wants[d]) == Writable(m, d, wants[d]) {
      OverlayWritable(m, wants, d, wants[d]);
    }
    assert Overlay(m1, wants).files == m1.files;
  }

  /** The directory a recorded key is reapplied to, and the key a directory is recorded under. */
  function DirOfKey(k: string): Option<string> {
    match PptFromKey(k) case Some(a) => Some(a.DirName()) case None => None
  }

  function KeyOfDir(d: string): Option<string> {
    match PptFromDir(d) case Some(a) => Some(a.Key()) case None => None
  }

  /** On canonical keys the two are inverse. */
  lemma KeyDirInverse(k: string, d: string)
    requires Canonical(k)
    ensures DirOfKey(k) == Some(d) <==> KeyOfDir(d) == Some(k)
  {
    if PptFromDir(d).Some? {
      PptDirExact(d, PptFromDir(d).value);
      PptReparses(PptFromDir(d).value);
    }
    if PptFromKey(k).Some? { PptDirExact(d, PptFromKey(k).value); }
  }

  /** Recorded limits by directory; names that are no limit's are skipped. */
  function Wants(ppt: map<string, u32>, order: seq<string>): map<string, u32>
    requires forall k | k in order :: k in ppt
  {
    if order == [] then map[]
    else
      var front, k := order[..|order| - 1], order[|order| - 1];
      match DirOfKey(k)
      case None => Wants(ppt, front)
      case Some(d) => Wants(ppt, front)[d := ppt[k]]
  }

  /** The watts wanted of a directory: those recorded under its limit's key. */
  function WantedAt(ppt: map<string, u32>, order: seq<string>, d: string): Option<u32>
    requires forall k | k in order :: k in ppt
  {
    match KeyOfDir(d)
    case None => None
    case Some(k) => if k in order then Some(ppt[k]) else None
  }

  /** With canonical keys the walk wants of each directory what is recorded under its key. */
  lemma {:induction false} WantsExact(ppt: map<string, u32>, order: seq<string>, d: string)
    requires forall k | k in order :: k in ppt && Canonical(k)
    ensures d in Wants(ppt, order) <==> WantedAt(ppt, order, d).Some?
    ensures d in Wants(ppt, order) ==> WantedAt(ppt, order, d) == Some(Wants(ppt, order)[d])
  {
    if order != [] {
      var front, k := order[..|order| - 1], order[|order| - 1];
      WantsExact(ppt, front, d);
      KeyDirInverse(k, d);
      WantedLast(ppt, order, d);
      hide KeyOfDir, Canonical, DirOfKey, WantedAt;
    }
  }

  lemma WantedLast(ppt: map<string, u32>, order: seq<string>, d: string)
    requires order != [] && forall k | k in order :: k in ppt
    ensures var front, k := order[..|order| - 1], order[|order| - 1];
            WantedAt(ppt, order, d) == if KeyOfDir(d) == Some(k) then Some(ppt[k]) else WantedAt(ppt, front, d)
  {
    hide KeyOfDir;
    assert order == order[..|order| - 1] + [order[|order| - 1]];
  }

  /** All recorded limits, by directory. */
  function Wishes(ppt: map<string, u32>, order: seq<string>): map<string, u32>
    requires Enumerates(order, ppt)
  {
    WalkedKeys(order, ppt);
    Wants(ppt, order)
  }

  lemma WantedAnyOrder(ppt: map<string, u32>, order: seq<string>, order': seq<string>, d: string)
    requires Enumerates(order, ppt) && Enumerates(order', ppt) && CanonicalKeys(ppt)
    ensures d in Wishes(ppt, order) <==> d in Wishes(ppt, order')
    ensures d in Wishes(ppt, order) ==> Wishes(ppt, order)[d] == Wishes(ppt, order')[d]
  {
    hide KeyOfDir, Wants, Canonical, Enumerates;
    WalkedKeys(order, ppt);
    WalkedKeys(order', ppt);
    WantsExact(ppt, order, d);
    WantsExact(ppt, order', d);
  }

  lemma WantsAnyOrder(ppt: map<string, u32>, order: seq<string>, order': seq<string>)
    requires Enumerates(order, ppt) && Enumerates(order', ppt) && CanonicalKeys(ppt)
    ensures Wishes(ppt, order) == Wishes(ppt, order')
  {
    var w, w' := Wishes(ppt, order), Wishes(ppt, order');
    forall d ensures (d in w <==> d in w') && (d in w ==> w[d] == w'[d]) {
      WantedAnyOrder(ppt, order, order', d);
    }
  }

  /** However the map is walked, the result is the overlay of all its limits. */
  lemma {:induction false} LimitsAtOnce(m: Machine, ppt: map<string, u32>, order: seq<string>)
    requires forall k | k in order :: k in ppt && Canonical(k)
    requires NoneTwice(order)
    ensures ReapplyLimits(m, ppt, order) == Overlay(m, Wants(ppt, order))
  {
    hide Canonical, ReapplyLimit, Overlay, DirOfKey, NoneTwice;
    if order == [] {
      NothingWanted(m);
    } else {
      var front, k := order[..|order| - 1], order[|order| - 1];
      WalkedOnce(order);
      LimitsAtOnce(m, ppt, front);
      OneMoreKey(m, ppt, front, k);
    }
  }

  lemma NothingWanted(m: Machine)
    ensures Overlay(m, map[]) == m
  {
    assert Overlay(m, map[]).files == m.files;
  }

  lemma WalkedOnce(order: seq<string>)
    requires order != [] && NoneTwice(order)
    ensures order[|order| - 1] !in order[..|order| - 1]
    ensures NoneTwice(order[..|order| - 1])
  {
    var front, k := order[..|order| - 1], order[|order| - 1];
    assert order == front + [k];
    assert multiset(order) == multiset(front) + multiset{k};
    assert forall l :: multiset(order)[l] == multiset(front)[l] + if l == k then 1 else 0;
  }

  /** The walk goes on with a key it has not met, to a directory it has not written. */
  lemma OneMoreKey(m: Machine, ppt: map<string, u32>, front: seq<string>, k: string)
    requires (forall l | l in front :: l in ppt && Canonical(l)) && k in ppt && Canonical(k) && k !in front
    ensures ReapplyLimit(Overlay(m, Wants(ppt, front)), k, ppt[k])
            == match DirOfKey(k)
               case None => Overlay(m, Wants(ppt, front))
               case Some(d) => Overlay(m, Wants(ppt, front)[d := ppt[k]])
  {
    hide Canonical, Overlay, AfterWriteLimit, PptFromKey, KeyOfDir, Wants;
    if DirOfKey(k).Some? {
      var d := DirOfKey(k).value;
      WantsExact(ppt, front, d);
      KeyDirInverse(k, d);
      OverlayStep(m, Wants(ppt, front), d, ppt[k]);
    }
  }

  lemma ReappliedAtOnce(m: Machine, st: State, order: seq<string>)
    requires Enumerates(order, st.ppt) && CanonicalKeys(st.ppt)
    ensures Reapplied(m, st, order) == Overlay(ReapplyMode(ReapplyProfile(m, st), st), Wishes(st.ppt, order))
  {
    WalkedKeys(order, st.ppt);
    LimitsAtOnce(ReapplyMode(ReapplyProfile(m, st), st), st.ppt, order);
  }

  /** The order in which recorded limits are walked makes no difference. */
  lemma ReapplyOrderIrrelevant(m: Machine, st: State, order: seq<string>, order': seq<string>)
    requires Enumerates(order, st.ppt) && Enumerates(order', st.ppt) && CanonicalKeys(st.ppt)
    ensures Reapplied(m, st, order) == Reapplied(m, st, order')
  {
    ReappliedAtOnce(m, st, order);
    ReappliedAtOnce(m, st, order');
    WantsAnyOrder(st.ppt, order, order');
  }

  // ── applying twice ────────────────────────────────────────────────────────

  /** A write that has settled stays settled when other files change. */
  lemma SettledFrame(m: Machine, m': Machine, ps: set<Path>, p: Path, v: string)
    requires Written(m, p, v) == m && OnlyChanged(m, m', ps) && p !in ps && !p.FirmwareAttr?
    ensures Written(m', p, v) == m'
  {
    if Refusal(m', p, v) == None {
      assert Refusal(m, p, v) == None;
      assert Written(m, p, v).files[p] == m.files[p];
      assert Content(m', p, v) == Content(m, p, v);
      assert Written(m', p, v).files == m'.files;
    }
  }

  lemma WriteSettles(m: Machine, p: Path, v: string)
    requires p.ProfileAttr?
    ensures Written(Written(m, p, v), p, v) == Written(m, p, v)
  {
    if Refusal(m, p, v) == None {
      assert Written(Written(m, p, v), p, v).files == Written(m, p, v).files;
    }
  }

  /** The profile step, seen from any later point of the same pass. */
  lemma ProfileSettles(m: Machine, st: State, m': Machine, ps: set<Path>)
    requires OnlyChanged(ReapplyProfile(m, st), m', ps)
    requires forall dev, leaf :: ProfileAttr(dev, leaf) !in ps
    ensures ReapplyProfile(m', st) == m'
  {
    if st.profile.Some? && ProfileFromSysfs(st.profile.value).Some? {
      var p := ProfileFromSysfs(st.profile.value).value;
      var m1 := AfterSetProfile(m, p);
      DeviceFrame(m1, m', ps);
      OneDevice(m, p);
      if Device(m).Some? {
        var f := ProfileAttr(Device(m).value, "profile");
        WriteSettles(m, f, p.AsSysfs());
        SettledFrame(m1, m', ps, f, p.AsSysfs());
      }
    }
  }

  lemma ModeSettles(m: Machine, st: State, m': Machine, ps: set<Path>)
    requires OnlyChanged(ReapplyMode(m, st), m', ps) && ChargeTypes !in ps
    ensures ReapplyMode(m', st) == m'
  {
    if st.batteryMode.Some? && ChargeFromSysfs(st.batteryMode.value).Some? {
      var mode := ChargeFromSysfs(st.batteryMode.value).value;
      SelectTwice(m, mode.AsSysfs());
      SettledFrame(AfterSetMode(m, mode), m', ps, ChargeTypes, mode.AsSysfs());
    }
  }

  lemma ModeFrame(m: Machine, st: State)
    ensures OnlyChanged(m, ReapplyMode(m, st), {ChargeTypes})
  {
    if st.batteryMode.Some? && ChargeFromSysfs(st.batteryMode.value).Some? {
      WrittenFrame(m, ChargeTypes, ChargeFromSysfs(st.batteryMode.value).value.AsSysfs());
    }
  }

  /** Reapplying again, in whatever order, changes nothing. */
  lemma ReapplyTwice(m: Machine, st: State, order: seq<string>, order': seq<string>)
    requires Enumerates(order, st.ppt) && Enumerates(order', st.ppt) && CanonicalKeys(st.ppt)
    ensures Reapplied(Reapplied(m, st, order), st, order') == Reapplied(m, st, order)
  {
    var m1 := ReapplyProfile(m, st);
    var m2 := ReapplyMode(m1, st);
    var m3 := Reapplied(m, st, order);
    var wants := Wishes(st.ppt, order);
    ReappliedAtOnce(m, st, order);
    OverlayFrame(m2, wants);
    ModeFrame(m1, st);
    ProfileSettles(m, st, m3, {ChargeTypes} + LimitFiles(wants));
    ModeSettles(m1, st, m3, LimitFiles(wants));
    ReappliedAtOnce(m3, st, order');
    WantsAnyOrder(st.ppt, order, order');
    OverlayTwice(m2, wants);
  }

  // ── what is restored ──────────────────────────────────────────────────────

  function SelectedFile(m: Machine): set<Path> {
    match ProfileFile(m) case Some(f) => {f} case None => {}
  }

  /** A profile is on record: the kernel's own name of one. */
  predicate RecordsProfile(st: State) {
    exists p: PowerProfile :: st.profile == Some(p.AsSysfs())
  }

  /** A charge mode is on record: the kernel's name of one, in any letter case. */
  predicate RecordsMode(st: State) {
    st.batteryMode.Some? && exists c: ChargeMode :: SpelledLike(Trim(st.batteryMode.value), c.AsSysfs())
  }

  lemma RecordsExactly(st: State)
    ensures RecordsProfile(st) <==> st.profile.Some? && ProfileFromSysfs(st.profile.value).Some?
    ensures RecordsMode(st) <==> st.batteryMode.Some? && ChargeFromSysfs(st.batteryMode.value).Some?
  {
    hide ProfileFromSysfs, ChargeFromSysfs, SpelledLike, Trim;
    if st.profile.Some? {
      forall p: PowerProfile ensures ProfileFromSysfs(st.profile.value) == Some(p) <==> st.profile == Some(p.AsSysfs()) {
        ProfileSysfsExact(st.profile.value, p);
      }
    }
    if st.batteryMode.Some? {
      var s := st.batteryMode.value;
      forall c: ChargeMode ensures ChargeFromSysfs(s) == Some(c) <==> SpelledLike(Trim(s), c.AsSysfs()) {
        AcceptedSpellings(s, Quiet, c, Spl);
      }
    }
  }

  /** Files one pass may write: the selected device's profile and the charge types, if there is one on
      record, and the current value of each known limit on record. */
  function ReapplyFiles(m: Machine, st: State, order: seq<string>): set<Path>
    requires Enumerates(order, st.ppt)
  {
    (if RecordsProfile(st) then SelectedFile(m) else {})
    + (if RecordsMode(st) then {ChargeTypes} else {})
    + LimitFiles(Wishes(st.ppt, order))
  }

  lemma ProfileStep(m: Machine, st: State)
    ensures var m1 := ReapplyProfile(m, st);
            Device(m1) == Device(m) && OnlyChanged(m, m1, SelectedFile(m))
  {
    if st.profile.Some? && ProfileFromSysfs(st.profile.value).Some? {
      OneDevice(m, ProfileFromSysfs(st.profile.value).value);
    }
  }

  lemma ProfileRestoredFirst(m: Machine, st: State, p: PowerProfile)
    requires st.profile == Some(p.AsSysfs()) && SetProfileOutcome(m, p).Ok?
    ensures GetProfile(ReapplyProfile(m, st)) == Ok(p)
  {
    ProfileReparses(p);
    OneDevice(m, p);
  }

  /** Every other file is untouched, and the selected device stays selected, in the profile
      that was restored first. */
  lemma ReappliedFrame(m: Machine, st: State, order: seq<string>)
    requires Enumerates(order, st.ppt) && CanonicalKeys(st.ppt)
    ensures OnlyChanged(m, Reapplied(m, st, order), ReapplyFiles(m, st, order))
    ensures Device(Reapplied(m, st, order)) == Device(m)
    ensures GetProfile(Reapplied(m, st, order)) == GetProfile(ReapplyProfile(m, st))
  {
    var m1 := ReapplyProfile(m, st);
    var m2 := ReapplyMode(m1, st);
    RecordsExactly(st);
    ProfileStep(m, st);
    ModeFrame(m1, st);
    ProfileFrame(m1, m2, {ChargeTypes});
    ReappliedAtOnce(m, st, order);
    OverlayFrame(m2, Wishes(st.ppt, order));
    hide ProfileFromSysfs, ChargeFromSysfs, RecordsProfile, RecordsMode, AfterSetProfile, AfterSetMode, Overlay, GetProfile, Device,
         Reapplied, Wants, CanonicalKeys, Enumerates;
    UnrecordedSteps(m, st);
  }

  lemma UnrecordedSteps(m: Machine, st: State)
    ensures !RecordsProfile(st) ==> ReapplyProfile(m, st) == m
    ensures !RecordsMode(st) ==> ReapplyMode(ReapplyProfile(m, st), st) == ReapplyProfile(m, st)
  {
    RecordsExactly(st);
    hide ProfileFromSysfs, ChargeFromSysfs, RecordsProfile, RecordsMode, AfterSetProfile, AfterSetMode;
  }

  predicate SameFile(m: Machine, m': Machine, p: Path) {
    p in m.files && p in m'.files && m'.files[p] == m.files[p]
  }

  /** What is not on record is not touched: no profile file, and not the charge types. */
  lemma UnrecordedUntouched(m: Machine, st: State, order: seq<string>)
    requires Enumerates(order, st.ppt) && CanonicalKeys(st.ppt)
    ensures !RecordsProfile(st) ==>
              forall dev, leaf | ProfileAttr(dev, leaf) in m.files ::
                SameFile(m, Reapplied(m, st, order), ProfileAttr(dev, leaf))
    ensures !RecordsMode(st) && ChargeTypes in m.files ==> SameFile(m, Reapplied(m, st, order), ChargeTypes)
  {
    hide *;
    ReappliedFrame(m, st, order);
    UnrecordedFiles(m, st, order);
    forall p | p in m.files && p !in ReapplyFiles(m, st, order) ensures SameFile(m, Reapplied(m, st, order), p) {
      Untouched(m, Reapplied(m, st, order), ReapplyFiles(m, st, order), p);
    }
  }

  lemma Untouched(m: Machine, m': Machine, ps: set<Path>, p: Path)
    requires OnlyChanged(m, m', ps) && p in m.files && p !in ps
    ensures SameFile(m, m', p)
  {
  }

  lemma UnrecordedFiles(m: Machine, st: State, order: seq<string>)
    requires Enumerates(order, st.ppt)
    ensures !RecordsProfile(st) ==> forall dev, leaf :: ProfileAttr(dev, leaf) !in ReapplyFiles(m, st, order)
    ensures !RecordsMode(st) ==> ChargeTypes !in ReapplyFiles(m, st, order)
  {
    SelectedIsProfile(m);
    hide RecordsProfile, RecordsMode, Enumerates, Wishes, SelectedFile;
  }

  lemma SelectedIsProfile(m: Machine)
    ensures ChargeTypes !in SelectedFile(m)
  {
    hide Device;
  }

  /** A state that holds nothing changes nothing. */
  lemma NothingToReapply(m: Machine, st: State, order: seq<string>)
    requires Enumerates(order, st.ppt) && !RecordsProfile(st) && !RecordsMode(st) && st.ppt == map[]
    ensures Reapplied(m, st, order) == m
  {
    WalkedKeys(order, st.ppt);
    assert |order| == |multiset(order)|;
    hide ReapplyProfile, ReapplyMode, RecordsProfile, RecordsMode;
    UnrecordedSteps(m, st);
  }

  /** The recorded profile is active afterwards if the kernel accepts it, whatever Fn+Q or a
      reset had left. */
  lemma RestoredProfile(m: Machine, st: State, order: seq<string>, p: PowerProfile)
    requires Enumerates(order, st.ppt) && CanonicalKeys(st.ppt)
    requires st.profile == Some(p.AsSysfs()) && SetProfileOutcome(m, p).Ok?
    ensures GetProfile(Reapplied(m, st, order)) == Ok(p)
  {
    ReappliedFrame(m, st, order);
    ProfileRestoredFirst(m, st, p);
  }

  lemma SameSelect(m: Machine, m1: Machine, name: string)
    requires m1 == m.(files := m1.files) && ChargeTypes in m.files && ChargeTypes in m1.files
    requires m1.files[ChargeTypes] == m.files[ChargeTypes]
    ensures Verdict(m1, ChargeTypes, name) == Verdict(m, ChargeTypes, name)
  {
  }

  lemma ModeStep(m: Machine, st: State, mode: ChargeMode)
    requires st.batteryMode.Some? && SpelledLike(Trim(st.batteryMode.value), mode.AsSysfs())
    ensures ReapplyMode(m, st) == AfterSetMode(m, mode)
  {
    AcceptedSpellings(st.batteryMode.value, Quiet, mode, Spl);
  }

  lemma SameMode(m: Machine, m': Machine)
    requires ChargeTypes in m.files && ChargeTypes in m'.files
    requires m'.files[ChargeTypes] == m.files[ChargeTypes]
    ensures GetMode(m') == GetMode(m) && ListReadable(m') == ListReadable(m)
  {
  }

  /** The recorded charge mode, if the kernel accepts it, is active afterwards exactly when the
      list of types is one the toolkit can read. */
  lemma RestoredMode(m: Machine, st: State, order: seq<string>, mode: ChargeMode)
    requires Enumerates(order, st.ppt) && CanonicalKeys(st.ppt)
    requires st.batteryMode.Some? && SpelledLike(Trim(st.batteryMode.value), mode.AsSysfs()) && SetModeOutcome(m, mode).Ok?
    ensures GetMode(Reapplied(m, st, order)) == Ok(mode) <==> ListReadable(m)
  {
    var m1 := ReapplyProfile(m, st);
    var m2 := ReapplyMode(m1, st);
    ProfileStep(m, st);
    ModeStep(m1, st, mode);
    SameSelect(m, m1, mode.AsSysfs());
    SetThenGetMode(m1, mode);
    ReappliedAtOnce(m, st, order);
    OverlayFrame(m2, Wishes(st.ppt, order));
    SameMode(m, m1);
    SameMode(m2, Reapplied(m, st, order));
  }

  /** A recorded limit becomes its attribute's current value exactly when the attribute takes
      it under the profile just restored; every other attribute reads as before. */
  lemma RestoredValue(m: Machine, st: State, order: seq<string>, dir: string)
    requires Enumerates(order, st.ppt) && CanonicalKeys(st.ppt)
    ensures var wants, r, r' := Wishes(st.ppt, order), ReadByName(m, dir),
                                ReadByName(Reapplied(m, st, order), dir);
            if dir in wants && Writable(ReapplyProfile(m, st), dir, wants[dir])
            then r.Ok? && r' == Ok(r.value.(current := wants[dir])) else r' == r
  {
    hide ReapplyProfile, ReapplyMode, Reapplied, WriteLimitOutcome, Overlay, ReadByName, GetProfile, Device, Wishes, CanonicalKeys,
         Enumerates;
    var m1 := ReapplyProfile(m, st);
    var m2 := ReapplyMode(m1, st);
    var wants := Wishes(st.ppt, order);
    ProfileStep(m, st);
    ReadSame(m, m1, SelectedFile(m), dir);
    ModeFrame(m1, st);
    ProfileFrame(m1, m2, {ChargeTypes});
    ReadSame(m1, m2, {ChargeTypes}, dir);
    ReappliedAtOnce(m, st, order);
    OverlayReads(m2, wants, dir);
    if dir in wants { WritableSame(m1, m2, {ChargeTypes}, dir, wants[dir]); }
  }

  lemma AcceptedInCustom(m: Machine, dir: string, watts: u32)
    requires (m.gate ==> CustomSelected(m)) && LimitRefusal(m, dir, watts) == None
    requires (CurrentValue(dir), Print(watts)) !in m.refuse
    ensures Writable(m, dir, watts)
  {
  }

  lemma BusyOutsideCustom(m: Machine, dir: string, watts: u32)
    requires m.gate && !CustomSelected(m)
    ensures !Writable(m, dir, watts)
  {
  }

  lemma Wanted(ppt: map<string, u32>, order: seq<string>, a: PptAttr)
    requires Enumerates(order, ppt) && CanonicalKeys(ppt) && a.Key() in ppt
    ensures a.DirName() in Wishes(ppt, order) && Wishes(ppt, order)[a.DirName()] == ppt[a.Key()]
  {
    WalkedKeys(order, ppt);
    WantsExact(ppt, order, a.DirName());
    PptReparses(a);
    KeyDirInverse(a.Key(), a.DirName());
  }

  /** Recorded Custom, accepted: every recorded known limit that its attribute can take is the
      attribute's current value afterwards, whatever profile the firmware had gone to and
      whatever else fails. */
  lemma RestoredLimits(m: Machine, st: State, order: seq<string>, a: PptAttr)
    requires Enumerates(order, st.ppt) && CanonicalKeys(st.ppt)
    requires st.profile == Some(Custom.AsSysfs()) && SetProfileOutcome(m, Custom).Ok?
    requires a.Key() in st.ppt && LimitRefusal(m, a.DirName(), st.ppt[a.Key()]) == None
    requires (CurrentValue(a.DirName()), Print(st.ppt[a.Key()])) !in m.refuse
    ensures CustomSelected(Reapplied(m, st, order))
    ensures ReadByName(Reapplied(m, st, order), a.DirName())
            == Ok(ReadByName(m, a.DirName()).value.(current := st.ppt[a.Key()]))
  {
    var dir, watts := a.DirName(), st.ppt[a.Key()];
    TakenInCustom(m, st, dir, watts);
    ReappliedFrame(m, st, order);
    hide *;
    Wanted(st.ppt, order, a);
    RestoredValue(m, st, order, dir);
    SameGate(ReapplyProfile(m, st), Reapplied(m, st, order));
  }

  lemma SameGate(m: Machine, m': Machine)
    requires GetProfile(m') == GetProfile(m)
    ensures CustomSelected(m') == CustomSelected(m)
  {
  }

  lemma TakenInCustom(m: Machine, st: State, dir: string, watts: u32)
    requires st.profile == Some(Custom.AsSysfs()) && SetProfileOutcome(m, Custom).Ok?
    requires LimitRefusal(m, dir, watts) == None && (CurrentValue(dir), Print(watts)) !in m.refuse
    ensures CustomSelected(ReapplyProfile(m, st))
    ensures Writable(ReapplyProfile(m, st), dir, watts)
  {
    var m1 := ReapplyProfile(m, st);
    ProfileRestoredFirst(m, st, Custom);
    ProfileStep(m, st);
    ReadSame(m, m1, SelectedFile(m), dir);
    AcceptedInCustom(m1, dir, watts);
  }

  /** Recorded anything else, accepted, and the gate enforced: no limit changes at all. */
  lemma LimitsLeftAlone(m: Machine, st: State, order: seq<string>, p: PowerProfile, dir: string)
    requires Enumerates(order, st.ppt) && CanonicalKeys(st.ppt)
    requires m.gate && p != Custom
    requires st.profile == Some(p.AsSysfs()) && SetProfileOutcome(m, p).Ok?
    ensures ReadByName(Reapplied(m, st, order), dir) == ReadByName(m, dir)
  {
    var m1, wants := ReapplyProfile(m, st), Wishes(st.ppt, order);
    ProfileRestoredFirst(m, st, p);
    ProfileStep(m, st);
    if dir in wants { BusyOutsideCustom(m1, dir, wants[dir]); }
    RestoredValue(m, st, order, dir);
  }

  /** Custom is active once the profile step is over: restored by it, or, where there is nothing to
      restore or the kernel refuses, active before. */
  predicate CustomAhead(m: Machine, st: State) {
    match RecordedProfile(st)
    case None => CustomSelected(m)
    case Some(p) => if SetProfileOutcome(m, p).Ok? then p == Custom else CustomSelected(m)
  }

  /** The recorded profile, if it is one. */
  function RecordedProfile(st: State): Option<PowerProfile> {
    match st.profile case None => None case Some(s) => ProfileFromSysfs(s)
  }

  lemma ProfileStepExactly(m: Machine, st: State)
    ensures GetProfile(ReapplyProfile(m, st))
            == match RecordedProfile(st)
               case None => GetProfile(m)
               case Some(p) => if SetProfileOutcome(m, p).Ok? then Ok(p) else GetProfile(m)
    ensures CustomSelected(ReapplyProfile(m, st)) <==> CustomAhead(m, st)
  {
    hide ProfileFromSysfs, SetProfileOutcome, AfterSetProfile, GetProfile;
    if RecordedProfile(st).Some? {
      OneDevice(m, RecordedProfile(st).value);
    }
  }

  /** The watts that reapplying leaves in an attribute, whatever its name, if it changes it: those recorded
      for the known limit whose directory it is, if they are within its bounds, the kernel has nothing
      against them, and no gate is in force or Custom is ahead. */
  function Regained(m: Machine, st: State, dir: string): Option<u32> {
    match PptFromDir(dir)
    case None => None
    case Some(a) => if Takeable(m, st, a) && (!m.gate || CustomAhead(m, st)) then Some(st.ppt[a.Key()]) else None
  }

  /** A known limit on record that its attribute would take, were it not for the gate. */
  predicate Takeable(m: Machine, st: State, a: PptAttr) {
    && a.Key() in st.ppt
    && LimitRefusal(m, a.DirName(), st.ppt[a.Key()]) == None
    && (CurrentValue(a.DirName()), Print(st.ppt[a.Key()])) !in m.refuse
  }

  /** What an attribute of any name reads after the pass: the watts it regains, or else what the firmware
      left in it. So no limit but the three known ones ever comes back. */
  lemma ComesBackExactly(m: Machine, st: State, order: seq<string>, dir: string)
    requires Enumerates(order, st.ppt) && CanonicalKeys(st.ppt)
    ensures var r, r' := ReadByName(m, dir), ReadByName(Reapplied(m, st, order), dir);
            match Regained(m, st, dir)
            case Some(watts) => r.Ok? && r' == Ok(r.value.(current := watts))
            case None => r' == r
  {
    hide Reapplied, Enumerates, CanonicalKeys, ReadByName, LimitRefusal, WriteLimitOutcome, CustomAhead, ReapplyProfile, Wishes,
         PptFromDir, Print;
    RestoredValue(m, st, order, dir);
    WishedExactly(st.ppt, order, dir);
    match PptFromDir(dir) {
      case None =>
      case Some(a) =>
        PptDirExact(dir, a);
        if a.Key() in st.ppt { WritableExactly(m, st, dir, st.ppt[a.Key()]); }
    }
  }

  lemma WishedExactly(ppt: map<string, u32>, order: seq<string>, dir: string)
    requires Enumerates(order, ppt) && CanonicalKeys(ppt)
    ensures dir in Wishes(ppt, order) <==> PptFromDir(dir).Some? && PptFromDir(dir).value.Key() in ppt
    ensures dir in Wishes(ppt, order) ==> Wishes(ppt, order)[dir] == ppt[PptFromDir(dir).value.Key()]
  {
    hide PptFromDir, Wants, Canonical, Enumerates;
    WalkedKeys(order, ppt);
    WantsExact(ppt, order, dir);
  }

  lemma WritableExactly(m: Machine, st: State, dir: string, watts: u32)
    ensures LimitRefusal(m, dir, watts) == None ==> ReadByName(m, dir).Ok?
    ensures Writable(ReapplyProfile(m, st), dir, watts) <==>
              && LimitRefusal(m, dir, watts) == None && (CurrentValue(dir), Print(watts)) !in m.refuse
              && (!m.gate || CustomAhead(m, st))
  {
    hide GetProfile, ReadByName, CustomSelected, CustomAhead, ReapplyProfile, WriteLimitOutcome, Print;
    var m1 := ReapplyProfile(m, st);
    ProfileStepExactly(m, st);
    ProfileStep(m, st);
    ReadSame(m, m1, SelectedFile(m), dir);
    KernelTakes(m1, dir, watts);
  }

  lemma KernelTakes(m: Machine, dir: string, watts: u32)
    ensures Writable(m, dir, watts) <==>
              && LimitRefusal(m, dir, watts) == None && (CurrentValue(dir), Print(watts)) !in m.refuse
              && (!m.gate || CustomSelected(m))
  {
    hide ReadU32, ReadU32Or, ReadOpt, ListKey, Print, CustomSelected;
  }

  // ── what reapplying the profile costs ─────────────────────────────────────

  /** The active profile survives the pass exactly if no profile is on record, or the kernel refuses it, or
      it is the active one: any other choice made with Fn+Q is overridden. */
  lemma ProfileKeptExactly(m: Machine, st: State, order: seq<string>)
    requires Enumerates(order, st.ppt) && CanonicalKeys(st.ppt)
    ensures GetProfile(Reapplied(m, st, order)) == GetProfile(m) <==>
              match RecordedProfile(st)
              case None => true
              case Some(p) => SetProfileOutcome(m, p).Err? || GetProfile(m) == Ok(p)
  {
    ReappliedFrame(m, st, order);
    ProfileStepExactly(m, st);
    hide Reapplied, Enumerates, CanonicalKeys, RecordedProfile, SetProfileOutcome, GetProfile;
  }

  function WithoutProfile(st: State): State {
    st.(profile := None)
  }

  /** Whether restoring the profile makes a difference to a recorded limit that differs from what the
      attribute reads: none exactly if there is no gate, or Custom is active before and after that
      step, or neither. */
  lemma LimitUnaffectedExactly(m: Machine, st: State, order: seq<string>, a: PptAttr)
    requires Enumerates(order, st.ppt) && CanonicalKeys(st.ppt)
    requires Takeable(m, st, a)
    requires ReadByName(m, a.DirName()).Ok? && ReadByName(m, a.DirName()).value.current != st.ppt[a.Key()]
    ensures var with, bare := Reapplied(m, st, order), Reapplied(m, WithoutProfile(st), order);
            ReadByName(with, a.DirName()) == ReadByName(bare, a.DirName()) <==>
              !m.gate || (CustomSelected(m) <==> CustomAhead(m, st))
  {
    PptDirExact(a.DirName(), a);
    var bare := WithoutProfile(st);
    assert Takeable(m, bare, a) && (CustomAhead(m, bare) <==> CustomSelected(m));
    hide Reapplied, Enumerates, CanonicalKeys, ReadByName, Takeable, CustomAhead, CustomSelected, PptFromDir;
    ComesBackExactly(m, st, order, a.DirName());
    ComesBackExactly(m, bare, order, a.DirName());
  }

  /** Why the profile comes first: outside Custom the gate turns every limit away, so a pass that began
      with the limits would restore none of them. */
  lemma {:induction false} LimitsFirstLost(m: Machine, ppt: map<string, u32>, order: seq<string>)
    requires forall k | k in order :: k in ppt
    requires m.gate && !CustomSelected(m)
    ensures ReapplyLimits(m, ppt, order) == m
  {
    if order != [] {
      LimitsFirstLost(m, ppt, order[..|order| - 1]);
      var k := order[|order| - 1];
      match PptFromKey(k) {
        case Some(a) => WriteThenRead(m, a.DirName(), ppt[k]);
        case None =>
      }
    }
  }

  /** All that a state holds, as far as `m` takes it, is in `m'`: the profile; the charge mode, if modes
      can be read; and the known limits that a gate in force does not turn away. Everything else reads as
      in `m`: a profile and charge types not on record or refused, and every other attribute. */
  ghost predicate BroughtBack(m: Machine, st: State, m': Machine) {
    && (forall p: PowerProfile | st.profile == Some(p.AsSysfs()) ::
          GetProfile(m') == if SetProfileOutcome(m, p).Ok? then Ok(p) else GetProfile(m))
    && (!RecordsProfile(st) ==> GetProfile(m') == GetProfile(m))
    && (forall c: ChargeMode | st.batteryMode.Some? && SpelledLike(Trim(st.batteryMode.value), c.AsSysfs()) ::
          if SetModeOutcome(m, c).Ok? then (GetMode(m') == Ok(c) <==> ListReadable(m)) else SameTypes(m, m'))
    && (!RecordsMode(st) ==> SameTypes(m, m'))
    && (forall dir :: Reread(m, st, m', dir))
  }

  predicate SameTypes(m: Machine, m': Machine) {
    (ChargeTypes in m'.files <==> ChargeTypes in m.files)
    && (ChargeTypes in m.files ==> m'.files[ChargeTypes] == m.files[ChargeTypes])
  }

  predicate Reread(m: Machine, st: State, m': Machine, dir: string) {
    match Regained(m, st, dir)
    case Some(watts) => ReadByName(m, dir).Ok? && ReadByName(m', dir) == Ok(ReadByName(m, dir).value.(current := watts))
    case None => ReadByName(m', dir) == ReadByName(m, dir)
  }

  lemma AllBroughtBack(m: Machine, st: State, order: seq<string>)
    requires Enumerates(order, st.ppt) && CanonicalKeys(st.ppt)
    ensures BroughtBack(m, st, Reapplied(m, st, order))
  {
    hide Reapplied, Enumerates, CanonicalKeys, GetProfile, GetMode, ReadByName, SetProfileOutcome, SetModeOutcome, ListReadable,
         Regained, SpelledLike, Trim, SameTypes, RecordsProfile, RecordsMode;
    ProfileAfter(m, st, order);
    forall c: ChargeMode | st.batteryMode.Some? && SpelledLike(Trim(st.batteryMode.value), c.AsSysfs())
      ensures if SetModeOutcome(m, c).Ok? then (GetMode(Reapplied(m, st, order)) == Ok(c) <==> ListReadable(m))
              else SameTypes(m, Reapplied(m, st, order))
    {
      if SetModeOutcome(m, c).Ok? { RestoredMode(m, st, order, c); } else { RefusedMode(m, st, order, c); }
    }
    if !RecordsMode(st) { UnrecordedTypes(m, st, order); }
    forall dir ensures Reread(m, st, Reapplied(m, st, order), dir) {
      ComesBackExactly(m, st, order, dir);
    }
  }

  lemma ProfileAfter(m: Machine, st: State, order: seq<string>)
    requires Enumerates(order, st.ppt) && CanonicalKeys(st.ppt)
    ensures forall p: PowerProfile | st.profile == Some(p.AsSysfs()) ::
              GetProfile(Reapplied(m, st, order)) == if SetProfileOutcome(m, p).Ok? then Ok(p) else GetProfile(m)
    ensures !RecordsProfile(st) ==> GetProfile(Reapplied(m, st, order)) == GetProfile(m)
  {
    ReappliedFrame(m, st, order);
    ProfileStepExactly(m, st);
    UnrecordedSteps(m, st);
    hide Reapplied, Enumerates, CanonicalKeys, GetProfile, SetProfileOutcome, RecordsProfile, ProfileFromSysfs;
    forall p: PowerProfile | st.profile == Some(p.AsSysfs())
      ensures GetProfile(Reapplied(m, st, order)) == if SetProfileOutcome(m, p).Ok? then Ok(p) else GetProfile(m)
    {
      ProfileReparses(p);
    }
  }

  lemma UnrecordedTypes(m: Machine, st: State, order: seq<string>)
    requires Enumerates(order, st.ppt) && CanonicalKeys(st.ppt) && !RecordsMode(st)
    ensures SameTypes(m, Reapplied(m, st, order))
  {
    ReappliedFrame(m, st, order);
    UnrecordedUntouched(m, st, order);
    hide Reapplied, Enumerates, CanonicalKeys, RecordsMode, RecordsProfile, ReapplyFiles;
  }

  /** A mode the kernel refuses leaves the list as it is. */
  lemma RefusedMode(m: Machine, st: State, order: seq<string>, c: ChargeMode)
    requires Enumerates(order, st.ppt) && CanonicalKeys(st.ppt) && SetModeOutcome(m, c).Err?
    requires st.batteryMode.Some? && SpelledLike(Trim(st.batteryMode.value), c.AsSysfs())
    ensures SameTypes(m, Reapplied(m, st, order))
  {
    var m1 := ReapplyProfile(m, st);
    ProfileStep(m, st);
    ModeStep(m1, st, c);
    hide Reapplied, Enumerates, CanonicalKeys, SpelledLike, Trim, ReapplyProfile, ReapplyMode, Overlay, Wants;
    if ChargeTypes in m.files { SameSelect(m, m1, c.AsSysfs()); }
    WrittenFrame(m1, ChargeTypes, c.AsSysfs());
    ReappliedAtOnce(m, st, order);
    OverlayFrame(ReapplyMode(m1, st), Wishes(st.ppt, order));
  }

  // ── a pass with the firmware at work ──────────────────────────────────────

  /** A limit written by a pass, and sysfs as the kernel found it then. */
  datatype LimitWrite = LimitWrite(seen: Machine, key: string, dir: string, watts: u32)

  /** The limits of one pass, with `races[i]` what the firmware makes of sysfs just before the i-th of
      them, if it acts; and the writes that were accepted. */
  function RacedLimits(m: Machine, ppt: map<string, u32>, order: seq<string>, races: seq<Option<Machine>>)
      : (Machine, seq<LimitWrite>)
    requires |races| == |order| && forall k | k in order :: k in ppt
  {
    if order == [] then (m, [])
    else
      var n := |order| - 1;
      var (before, writes) := RacedLimits(m, ppt, order[..n], races[..n]);
      var seen := match races[n] case Some(after) => after case None => before;
      match DirOfKey(order[n])
      case None => (seen, writes)
      case Some(dir) =>
        (AfterWriteLimit(seen, dir, ppt[order[n]]),
         if Writable(seen, dir, ppt[order[n]]) then writes + [LimitWrite(seen, order[n], dir, ppt[order[n]])] else writes)
  }

  /** However the firmware interferes with a pass, every limit it writes is one on record, in its known
      directory and within its bounds there, and none is written out of Custom under the gate. */
  lemma {:induction false} RacedLimitsAccepted(m: Machine, ppt: map<string, u32>, order: seq<string>,
                                               races: seq<Option<Machine>>)
    requires |races| == |order| && forall k | k in order :: k in ppt
    ensures forall x | x in RacedLimits(m, ppt, order, races).1 ::
              && x.key in order && x.watts == ppt[x.key] && DirOfKey(x.key) == Some(x.dir)
              && AcceptedLimit(x.seen, x.dir, x.watts)
  {
    if order != [] {
      hide DirOfKey, AfterWriteLimit, WriteLimitOutcome, AcceptedLimit;
      var n := |order| - 1;
      RacedLimitsAccepted(m, ppt, order[..n], races[..n]);
      var (before, _) := RacedLimits(m, ppt, order[..n], races[..n]);
      var seen := match races[n] case Some(after) => after case None => before;
      if DirOfKey(order[n]).Some? { AcceptedExactly(seen, DirOfKey(order[n]).value, ppt[order[n]]); }
    }
  }

  /** If it does not, the pass is the plain one. */
  lemma {:induction false} RacedLimitsUndisturbed(m: Machine, ppt: map<string, u32>, order: seq<string>,
                                                  races: seq<Option<Machine>>)
    requires |races| == |order| && (forall k | k in order :: k in ppt) && forall i | 0 <= i < |races| :: races[i] == None
    ensures RacedLimits(m, ppt, order, races).0 == ReapplyLimits(m, ppt, order)
  {
    if order != [] {
      hide PptFromKey, AfterWriteLimit, WriteLimitOutcome;
      RacedLimitsUndisturbed(m, ppt, order[..|order| - 1], races[..|order| - 1]);
    }
  }
}
