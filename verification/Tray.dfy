/** The tray icon's cache of what it last showed. */
module Tray {
  import opened Wrappers
  import opened Text
  import opened Attrs

  datatype Capabilities = Capabilities(fnLock: bool, cameraPower: bool, chargeTypeChoices: seq<string>)

  datatype Snapshot = Snapshot(
    profile: string, profileChoices: seq<string>, batteryMode: string, fnLock: bool, camera: bool,
    usbCharging: bool, backlight: u32, boost: bool, capabilities: Capabilities, ppt: seq<AttrInfo>,
    daemonVersion: string)

  datatype TrayState = TrayState(
    profile: string, profileChoices: seq<string>, batteryMode: string, batteryChoices: seq<string>,
    fnLock: bool, camera: bool, hasFnLock: bool, hasCamera: bool)
  {
    /** The comparison written out by hand. */
    predicate Eq(other: TrayState) {
      && profile == other.profile
      && profileChoices == other.profileChoices
      && batteryMode == other.batteryMode
      && batteryChoices == other.batteryChoices
      && fnLock == other.fnLock
      && camera == other.camera
      && hasFnLock == other.hasFnLock
      && hasCamera == other.hasCamera
    }
  }

  const BLANK: TrayState := TrayState("", [], "", [], false, false, false, false)

  function FromSnapshot(s: Snapshot): TrayState {
    TrayState(s.profile, s.profileChoices, s.batteryMode, s.capabilities.chargeTypeChoices,
              s.fnLock, s.camera, s.capabilities.fnLock, s.capabilities.cameraPower)
  }

  // ── the menu ──────────────────────────────────────────────────────────────

  datatype Request = SetProfile(value: string) | SetBatteryMode(value: string) | SetFnLock(on: bool) | SetCameraPower(on: bool)

  datatype Item =
    | Heading(title: string)
    | PowerModes(choices: seq<string>, selected: nat)
    | BatteryModes(choices: seq<string>, selected: nat)
    | FnLock(checked: bool)
    | Camera(checked: bool)
    | Separator
    | OpenDashboard
    | Quit

  /** The entry marked in a group: the current one's first place, or the first entry. */
  function Position(choices: seq<string>, current: string): (k: nat)
    ensures choices != [] ==> k < |choices|
    ensures current in choices ==> choices[k] == current && current !in choices[..k]
    ensures current !in choices ==> k == 0
  {
    if choices == [] || choices[0] == current || current !in choices then 0
    else Position(choices[1..], current) + 1
  }

  function ProfileItems(t: TrayState): seq<Item> {
    if t.profileChoices == [] then []
    else [Heading("Power Mode"), PowerModes(t.profileChoices, Position(t.profileChoices, t.profile)), Separator]
  }

  function BatteryItems(t: TrayState): seq<Item> {
    if t.batteryChoices == [] then []
    else [Heading("Battery"), BatteryModes(t.batteryChoices, Position(t.batteryChoices, t.batteryMode)), Separator]
  }

  function SwitchItems(t: TrayState): seq<Item> {
    (if t.hasFnLock then [FnLock(t.fnLock)] else [])
    + (if t.hasCamera then [Camera(t.camera)] else [])
    + if t.hasFnLock || t.hasCamera then [Separator] else []
  }

  function Menu(t: TrayState): seq<Item> {
    ProfileItems(t) + BatteryItems(t) + SwitchItems(t) + [OpenDashboard, Quit]
  }

  lemma InMenu(t: TrayState, item: Item)
    ensures item in Menu(t) <==>
              item in ProfileItems(t) || item in BatteryItems(t) || item in SwitchItems(t) || item == OpenDashboard || item == Quit
  {
    hide ProfileItems, BatteryItems, SwitchItems;
  }

  lemma InParts(t: TrayState, item: Item)
    ensures item in ProfileItems(t) ==> item.Heading? || item.Separator? || item.PowerModes?
    ensures item in BatteryItems(t) ==> item.Heading? || item.Separator? || item.BatteryModes?
    ensures item in SwitchItems(t) ==> item.FnLock? || item.Camera? || item.Separator?
    ensures item.PowerModes? ==> (item in ProfileItems(t) <==>
              t.profileChoices != [] && item == PowerModes(t.profileChoices, Position(t.profileChoices, t.profile)))
    ensures item.BatteryModes? ==> (item in BatteryItems(t) <==>
              t.batteryChoices != [] && item == BatteryModes(t.batteryChoices, Position(t.batteryChoices, t.batteryMode)))
    ensures item.FnLock? ==> (item in SwitchItems(t) <==> t.hasFnLock && item == FnLock(t.fnLock))
    ensures item.Camera? ==> (item in SwitchItems(t) <==> t.hasCamera && item == Camera(t.camera))
  {
    hide Position;
  }

  /** What choosing the `i`-th entry of an item, or toggling it, asks of the daemon. */
  function Chosen(item: Item, i: nat): Option<Request> {
    match item
    case PowerModes(choices, _) => if i < |choices| then Some(SetProfile(choices[i])) else None
    case BatteryModes(choices, _) => if i < |choices| then Some(SetBatteryMode(choices[i])) else None
    case FnLock(checked) => Some(SetFnLock(!checked))
    case Camera(checked) => Some(SetCameraPower(!checked))
    case _ => None
  }

  /** The menu of a snapshot, item by item: which are there, what they offer and what they mark. */
  lemma MenuExactly(s: Snapshot, on: bool, choices: seq<string>, k: nat)
    ensures var menu := Menu(FromSnapshot(s));
            && (FnLock(on) in menu <==> s.capabilities.fnLock && on == s.fnLock)
            && (Camera(on) in menu <==> s.capabilities.cameraPower && on == s.camera)
            && (PowerModes(choices, k) in menu <==>
                  choices == s.profileChoices != [] && k == Position(s.profileChoices, s.profile))
            && (BatteryModes(choices, k) in menu <==>
                  choices == s.capabilities.chargeTypeChoices != [] && k == Position(choices, s.batteryMode))
  {
    var t := FromSnapshot(s);
    hide Position, Menu, ProfileItems, BatteryItems, SwitchItems;
    forall item ensures item in Menu(t) <==> item in ProfileItems(t) || item in BatteryItems(t) || item in SwitchItems(t)
                                             || item == OpenDashboard || item == Quit
    {
      InMenu(t, item);
    }
    InParts(t, FnLock(on));
    InParts(t, Camera(on));
    InParts(t, PowerModes(choices, k));
    InParts(t, BatteryModes(choices, k));
  }

  /** What a shown menu asks for: the profile or charge mode chosen, or the opposite of a switch. */
  lemma MenuAsks(s: Snapshot, item: Item, i: nat, r: Request)
    requires item in Menu(FromSnapshot(s)) && Chosen(item, i) == Some(r)
    ensures match r
            case SetProfile(v) => i < |s.profileChoices| && v == s.profileChoices[i]
            case SetBatteryMode(v) => i < |s.capabilities.chargeTypeChoices| && v == s.capabilities.chargeTypeChoices[i]
            case SetFnLock(on) => s.capabilities.fnLock && on == !s.fnLock
            case SetCameraPower(on) => s.capabilities.cameraPower && on == !s.camera
  {
    hide Position, Menu;
    match item {
      case PowerModes(choices, k) => MenuExactly(s, true, choices, k);
      case BatteryModes(choices, k) => MenuExactly(s, true, choices, k);
      case FnLock(checked) => MenuExactly(s, checked, [], 0);
      case Camera(checked) => MenuExactly(s, checked, [], 0);
      case _ =>
    }
  }

  /** Before the first snapshot the tray shows no profile and offers nothing; only a snapshot that does the
      same is skipped at first. */
  lemma BlankExactly(s: Snapshot)
    ensures Menu(BLANK) == [OpenDashboard, Quit] && BLANK.profile == ""
    ensures FromSnapshot(s) == BLANK <==>
              && s.profile == "" && s.profileChoices == [] && s.batteryMode == "" && s.capabilities.chargeTypeChoices == []
              && !s.fnLock && !s.camera && !s.capabilities.fnLock && !s.capabilities.cameraPower
  {
  }

  /** No field is forgotten. */
  lemma EqExact(a: TrayState, b: TrayState)
    ensures a.Eq(b) <==> a == b
  {
  }

  /** How often a series of snapshots, shown after `shown`, really changes the picture. */
  function Changes(shown: TrayState, snaps: seq<Snapshot>): nat {
    if snaps == [] then 0
    else
      var last := if |snaps| == 1 then shown else FromSnapshot(snaps[|snaps| - 2]);
      Changes(shown, snaps[..|snaps| - 1]) + if FromSnapshot(snaps[|snaps| - 1]) == last then 0 else 1
  }

  class TrayHandle {
    var last: TrayState
    var shown: TrayState    // the registered item's own state
    ghost var pushes: nat   // updates sent to the desktop

    ghost predicate Valid()
      reads this
    {
      last == shown
    }

    constructor ()
      ensures Valid() && shown == BLANK && pushes == 0
    {
      last, shown := BLANK, BLANK;
      pushes := 0;
    }

    /** Afterwards the tray shows the snapshot, as it would had nothing been skipped. */
    method Update(snap: Snapshot)
      requires Valid()
      modifies this
      ensures Valid() && shown == FromSnapshot(snap)
      ensures pushes == old(pushes) + if FromSnapshot(snap) == old(shown) then 0 else 1
    {
      var next := FromSnapshot(snap);
      if last.Eq(next) {
        EqExact(last, next);
        return;
      }
      last := next;
      shown := next;
      pushes := pushes + 1;
    }
  }

  /** Over any series of snapshots handled one at a time the tray shows after each one what
      unconditional updating would show, and the desktop hears of changes only. */
  method Feed(tray: TrayHandle, snaps: seq<Snapshot>) returns (pictures: seq<TrayState>)
    requires tray.Valid()
    modifies tray
    ensures tray.Valid() && |pictures| == |snaps|
    ensures forall i | 0 <= i < |snaps| :: pictures[i] == FromSnapshot(snaps[i])
    ensures tray.shown == if snaps == [] then old(tray.shown) else FromSnapshot(snaps[|snaps| - 1])
    ensures tray.pushes == old(tray.pushes) + Changes(old(tray.shown), snaps)
  {
    pictures := [];
    var i := 0;
    while i < |snaps|
      invariant 0 <= i <= |snaps| && tray.Valid() && |pictures| == i
      invariant forall j | 0 <= j < i :: pictures[j] == FromSnapshot(snaps[j])
      invariant tray.shown == if i == 0 then old(tray.shown) else FromSnapshot(snaps[i - 1])
      invariant tray.pushes == old(tray.pushes) + Changes(old(tray.shown), snaps[..i])
    {
      tray.Update(snaps[i]);
      pictures := pictures + [tray.shown];
      assert snaps[..i + 1][..i] == snaps[..i];
      i := i + 1;
    }
    assert snaps[..i] == snaps;
  }

  // ── why one at a time ─────────────────────────────────────────────────────

  /** The program's one caller awaits each update before the next. What follows shows what that is for.
      An update remembers the new picture under the lock, lets go of it, and only then sends the
      picture on. `sending` are the pictures between the two. */
  datatype Cache = Cache(last: TrayState, shown: TrayState, sending: seq<TrayState>)

  datatype Act =
    | Begin(snap: Snapshot)
    | Send(i: nat)

  function Next(c: Cache, a: Act): Cache {
    match a
    case Begin(snap) =>
      var next := FromSnapshot(snap);
      if c.last.Eq(next) then c else c.(last := next, sending := c.sending + [next])
    case Send(i) =>
      if i >= |c.sending| then c
      else c.(shown := c.sending[i], sending := c.sending[..i] + c.sending[i + 1..])
  }

  function After(c: Cache, acts: seq<Act>): Cache
    decreases |acts|
  {
    if acts == [] then c else After(Next(c, acts[0]), acts[1..])
  }

  /** What the tray will show once everything in flight has been sent in order. */
  function Settled(c: Cache): TrayState {
    if c.sending == [] then c.shown else c.sending[|c.sending| - 1]
  }

  predicate InOrder(a: Act) {
    a.Send? ==> a.i == 0
  }

  function LastPicture(shown: TrayState, acts: seq<Act>): TrayState {
    if acts == [] then shown
    else if acts[|acts| - 1].Begin? then FromSnapshot(acts[|acts| - 1].snap)
    else LastPicture(shown, acts[..|acts| - 1])
  }

  lemma {:induction false} AfterSnoc(c: Cache, acts: seq<Act>, a: Act)
    ensures After(c, acts + [a]) == Next(After(c, acts), a)
    decreases |acts|
  {
    if acts == [] {
      assert [a][1..] == [];
      assert After(c, [a]) == After(Next(c, a), []);
      assert acts + [a] == [a];
    } else {
      assert (acts + [a])[1..] == acts[1..] + [a];
      AfterSnoc(Next(c, acts[0]), acts[1..], a);
    }
  }

  /** Sent in the order they were begun, updates may overlap at will: whatever is skipped, the tray
      settles on the latest snapshot's picture. */
  lemma {:induction false} SettlesOnTheLatest(c: Cache, acts: seq<Act>)
    requires c.last == Settled(c)
    requires forall i | 0 <= i < |acts| :: InOrder(acts[i])
    ensures var t := After(c, acts); t.last == Settled(t) == LastPicture(Settled(c), acts)
    decreases |acts|
  {
    if acts != [] {
      var front, a := acts[..|acts| - 1], acts[|acts| - 1];
      assert acts == front + [a];
      SettlesOnTheLatest(c, front);
      AfterSnoc(c, front, a);
      var t := After(c, front);
      if a.Begin? { EqExact(t.last, FromSnapshot(a.snap)); }
    }
  }

  lemma SwappedOnce(c: Cache, older: Snapshot, newer: Snapshot)
    requires c.sending == [] && c.last == c.shown
    requires FromSnapshot(older) != c.last && FromSnapshot(newer) != FromSnapshot(older)
    ensures After(c, [Begin(older), Begin(newer), Send(1), Send(0)])
            == Cache(FromSnapshot(newer), FromSnapshot(older), [])
  {
    var a, b := FromSnapshot(older), FromSnapshot(newer);
    var c1, c2, c3 := Cache(a, c.shown, [a]), Cache(b, c.shown, [a, b]), Cache(b, b, [a]);
    assert Next(c, Begin(older)) == c1 && Next(c1, Begin(newer)) == c2;
    assert Next(c2, Send(1)) == c3;
    assert Next(c3, Send(0)) == Cache(b, a, []);
    assert [Begin(older), Begin(newer), Send(1), Send(0)] == [Begin(older), Begin(newer), Send(1)] + [Send(0)];
    assert [Begin(older), Begin(newer), Send(1)] == [Begin(older), Begin(newer)] + [Send(1)];
    assert [Begin(older), Begin(newer)] == [Begin(older)] + [Begin(newer)];
    assert [Begin(older)] == [] + [Begin(older)];
    AfterSnoc(c, [], Begin(older));
    AfterSnoc(c, [Begin(older)], Begin(newer));
    AfterSnoc(c, [Begin(older), Begin(newer)], Send(1));
    AfterSnoc(c, [Begin(older), Begin(newer), Send(1)], Send(0));
  }

  /** Out of order they may not: two overlapping updates that swap leave the older picture up, and the
      newer snapshot, however often it is repeated, is then skipped as already shown. */
  lemma {:induction false} SwappedUpdatesStick(c: Cache, older: Snapshot, newer: Snapshot, repeats: nat)
    requires c.sending == [] && c.last == c.shown
    requires FromSnapshot(older) != c.last && FromSnapshot(newer) != FromSnapshot(older)
    ensures var t := After(c, [Begin(older), Begin(newer), Send(1), Send(0)] + seq(repeats, _ => Begin(newer)));
            t.sending == [] && t.last == FromSnapshot(newer) && t.shown == FromSnapshot(older)
    decreases repeats
  {
    var start := [Begin(older), Begin(newer), Send(1), Send(0)];
    if repeats == 0 {
      SwappedOnce(c, older, newer);
      assert start + seq(repeats, _ => Begin(newer)) == start;
    } else {
      SwappedUpdatesStick(c, older, newer, repeats - 1);
      AfterSnoc(c, start + seq(repeats - 1, _ => Begin(newer)), Begin(newer));
      assert start + seq(repeats, _ => Begin(newer))
          == (start + seq(repeats - 1, _ => Begin(newer))) + [Begin(newer)];
    }
  }
}
