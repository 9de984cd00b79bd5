# A verified model of the Legion Toolkit's daemon and its clients

The Legion Toolkit controls a Lenovo Legion laptop through files in sysfs. A daemon
(`legiond`) writes the power profile, the battery charge mode and the power limits,
remembers them in a state file, reapplies them at start and after resume, and tells its
clients about profile changes the firmware makes by itself (Fn+Q). A command line tool, a
dashboard and a tray icon are its clients. This project models that system in Dafny and
proves what holds over all its inputs and all its runs.

| file | what it models |
|---|---|
| `Text`, `Listing`, `Wrappers` | trimming, splitting, ASCII folding, decimal numbers, sorted listings |
| `Names` | profiles, charge modes, limits and their forgiving parsers |
| `Sysfs`, `Kernel` | the files, and what the kernel does with a write |
| `Discovery`, `Attrs`, `Battery`, `Hardware` | choosing the profile handler; attributes; the bracketed list of charge types; the three settings |
| `Store`, `Reapply` | remembered state and its file; reapplying it |
| `Protocol`, `Daemon` | the daemon as a transition system, and as an object updated in place that follows it |
| `Watch`, `Converge`, `Live` | the profile watcher, what clients end up seeing, and both joined to the daemon |
| `Ctl`, `Slider`, `Tray` | the command line's two paths, the slider's 32-bit arithmetic, the tray's cache |
| `Example` | machines and runs at which the conditions of the results hold and the failed promises fail |

`Protocol.Step` cuts every setter into its check, hardware write, recording, temporary file, rename and
closing signal, and lets the firmware act, a save or a signal fail, the process die and a new one
start between any two. The history of recordings that the results speak of only observes; its helper
`HistoryFaithful` says what each step does to it. `Protocol.Run` plays any sequence of such events from any sysfs and any disk contents. The
methods of `Daemon.Daemon` are proved to do to the real fields exactly what these steps do.

## Assumptions about the surroundings

- The kernel (`Kernel.Refusal`) refuses a write to an absent file, refuses `current_value` outside the
  Custom profile with EBUSY while its gate is in force, refuses a charge type it does not list,
  and may refuse any further writes with any error. An accepted write to `charge_types` moves
  the bracket; any other makes the value the file's line.
- Between any two steps the firmware may replace all of sysfs: profile, limits, bounds, handlers,
  the gate and the refusals.
- Rename is atomic. Writing the temporary file may fail or be cut off, leaving anything there.
  A whole encoding of a state decodes to that state; nothing else in the state file decodes.
- A change of what a profile file reads raises the kernel's event on that file. An event may come without
  a change.
- The bus serves one setter at a time, and a resume or a signal never falls inside one.

## Where the code does not do what its comments say

- `crates/legion-daemon/src/state.rs:6-7` calls reapplying the profile harmless. The active profile survives a pass
  exactly if none is recorded, the kernel refuses the recorded one, or it is the active one
  (`Reapply.ProfileKeptExactly`), and that step leaves a recorded limit's fate alone exactly if there is no
  gate or it does not enter or leave Custom (`Reapply.LimitUnaffectedExactly`). In `Example.NotRestored` it
  takes a user out of Custom and loses the limit, both of which a pass without it would keep.
- `crates/legion-daemon/src/iface.rs:66` speaks of everything in the persisted state. Limits are recorded under any
  name, but only the three known ones are ever reapplied (`Reapply.ComesBackExactly`, a run in
  `Example.OtherNotRestored`).
- `crates/legion-daemon/src/iface.rs:50-52` keeps a failed save from being reported as a failed setting, since the
  hardware has taken it. A closing signal that cannot be sent is not kept from it: the setting is
  made, remembered and saved, and the reply is an error (`Protocol.SetProfileServed`).
- `crates/legion-daemon/src/watch.rs:49-53` drops repeats so that clients see no spurious signals. As signals carry
  the profile as read when they are sent, and setters and resumes signal too, a dropped
  repeat can leave clients with another profile than the hardware's, and so can a single failed read
  or signal (`Live.SystemLoses`, runs from a first start in `Example.ChangesLost`; the exact condition is
  `Live.UpToDateExactly`).
- `crates/legion-hw/src/profile_watch.rs:38-40` keeps the watcher off a second handler's file, and
  `crates/legion-hw/src/profile.rs:131-133` picks up handlers loaded later. A watcher already open does neither: it
  stays on its file exactly as long as no new handler outranks its own
  (`Discovery.StaysSelectedExactly`), and after that hears nothing (`Live.DetachedLoses`, a run in
  `Example.PluggedLoses`).
- `crates/legion-daemon/src/watch.rs:27-30` speaks of a missing device, but a profile that cannot be read or
  parsed when the daemon starts also leaves it without a watcher for life (`Watch.Open`, `Example.Unwatched`).
- `crates/legion-ctl/src/commands.rs:3-5` says behaviour is identical with and without the daemon. An unreadable
  profile or charge mode is an error on the direct path and an empty name through the daemon, and a
  limit set while the profile is unreadable fails differently (`Ctl.ProfilePathsAgree`, `Ctl.BatteryPathsAgree`,
  `Ctl.PptPathsAgree`, all three at once in `Example.UnreadableAnswers`).
- `crates/legion-gui/src/state.rs:21-22` promises to tame nonsensical firmware ranges. A range that straddles 2^31, such as
  one without a `max_value`, panics (`Slider.PanicsExactly`, `Example.SliderPanics`).
- One unknown word in `charge_types` makes the active mode unreadable, even right after it was set
  (`Hardware.SetThenGetMode`, `Example.SetButUnreadable`).

## Model

| member | source | states |
|---|---|---|
| Protocol.CrashSafe | crates/legion-daemon/src/state.rs:35-61 | whatever is called, fails, crashes or restarts, the state file is never torn and holds the state after a prefix of the recordings, all of them if the latest save succeeded; a running daemon remembers all of them |
| Protocol.OnlyAcceptedLimits | crates/legion-daemon/src/iface.rs:274-306 | in every reachable state every remembered limit, in memory or on disk, was there at first boot, or was admitted by the daemon in Custom and then accepted by the kernel within its bounds and, where the gate is in force, still in Custom |
| Protocol.OneAtATime | crates/legion-daemon/src/iface.rs:169-306 | no call or resume is taken up while a setter is under way; a crash loses memory, and tears only a temporary file being written |
| Protocol.ReachableCanonical | crates/legion-daemon/src/iface.rs:293-302 | every remembered key of every reachable state is its own normal form |
| Protocol.ResumeIdempotent | crates/legion-daemon/src/main.rs:165-179 | in every reachable state resuming twice is resuming once, in any order of the limits |
| Protocol.SurvivesReset | crates/legion-daemon/src/main.rs:96-124 | from every reachable state and after any change of the hardware, a resume brings back the remembered profile, charge mode and three known limits, each as far as the hardware then takes it, and leaves all else as it finds it: a profile or charge types not on record or refused, and every other attribute; a crash at any point and a restart do so with what is on disk |
| Protocol.StartsFrom | crates/legion-daemon/src/state.rs:35-47 | a start remembers the whole state on disk, or, with no file or an undecodable one, nothing, and then leaves the hardware as it is |
| Protocol.RememberedNotRestored | crates/legion-daemon/src/iface.rs:72-97 | a limit accepted under a Custom chosen with Fn+Q while another profile is remembered is remembered, but the next resume returns to that profile and, under the gate, changes no attribute |
| Protocol.OtherLimitNotRestored | crates/legion-daemon/src/iface.rs:88-90 | a limit of any other name than the three known ones is accepted and remembered, and no resume ever writes it |
| Protocol.SetPptTransaction | crates/legion-daemon/src/iface.rs:274-306 | SetPpt succeeds exactly when authorised in Custom and accepted as the kernel finds things at the write; then one value is written, remembered and saved, else sysfs, memory and disk stay as they were |
| Protocol.SetPptServed | crates/legion-daemon/src/iface.rs:280-304 | the error of every rejection, in the order of the checks, and after every success sysfs, memory, state file and reply |
| Protocol.SetPptRaceLost | crates/legion-daemon/src/iface.rs:282-300 | when Fn+Q leaves Custom between check and write the caller is told to select Custom and only the firmware's change remains |
| Protocol.SetPptOnlyInCustom | crates/legion-daemon/src/iface.rs:282-291 | without interference no limit is written outside Custom, even where the kernel's gate is gone |
| Protocol.SetProfileServed | crates/legion-daemon/src/iface.rs:169-184 | once authorised, understood and accepted, the profile asked for is read back, remembered and saved, and only that device's file has changed; the reply is success exactly if the closing signal is sent too |
| Protocol.SetBatteryModeServed | crates/legion-daemon/src/iface.rs:186-201 | the same for charge modes, read back exactly when the list of types can be read |
| Protocol.ServedIsRun | crates/legion-daemon/src/iface.rs:169-201 | serving a request is one run of the transition system, so all run properties apply to it |
| Protocol.ServedExactly | crates/legion-daemon/src/iface.rs:169-201 | a request is rejected unchanged, fails leaving only the firmware's own change, or is completed |
| Protocol.RejectionsByName | crates/legion-daemon/src/iface.rs:175-289 | the error by its name for a caller without rights, a name that is none, and a limit out of Custom or with an unreadable profile; nothing changes |
| Protocol.RefusalsByName | crates/legion-daemon/src/error.rs:38-52 | the error by its name for each way the hardware can refuse, the same for all three setters; nothing but the firmware's own change is left |
| Protocol.UnlistedModeByName | crates/legion-daemon/src/iface.rs:193-194 | a charge mode the list does not have is answered as a failure, with nothing changed |
| Protocol.NoDeviceByName | crates/legion-daemon/src/iface.rs:176-177 | without a handler a profile is answered as not supported |
| Protocol.LimitByName | crates/legion-daemon/src/iface.rs:300-300 | a limit out of its bounds is an invalid argument, and one that does not exist not supported |
| Protocol.FailedJob | crates/legion-daemon/src/iface.rs:176-177 | a hardware write that fails has changed nothing |
| Daemon.Daemon.SetProfile | crates/legion-daemon/src/iface.rs:169-184 | the method on the object's fields, files and sysfs, its closing signal included, does exactly what serving the request does in the transition system |
| Daemon.Daemon.SetBatteryMode | crates/legion-daemon/src/iface.rs:186-201 | the same |
| Daemon.Daemon.SetPpt | crates/legion-daemon/src/iface.rs:274-306 | the same |
| Daemon.Daemon.Perform | crates/legion-daemon/src/iface.rs:177-181 | hardware first; memory and disk follow only an accepted write, the signal comes last, and the firmware may act just before the write |
| Daemon.Daemon.Remember | crates/legion-daemon/src/iface.rs:179-180 | recording and saving, with the whole new state for every way a save can go |
| Daemon.Daemon.Persist | crates/legion-daemon/src/iface.rs:53-60 | a failed save leaves the state file alone and is not reported |
| Daemon.Daemon.ReapplyState | crates/legion-daemon/src/iface.rs:72-97 | profile, then charge mode, then every limit, whatever fails, comes to the reapplied machine |
| Daemon.Daemon.ReapplyAll | crates/legion-daemon/src/iface.rs:87-96 | the loop over recorded limits skips unknown names and passes over failures |
| Daemon.Daemon.Resume | crates/legion-daemon/src/main.rs:171-174 | reapplying after sleep is the transition system's resume |
| Daemon.Start | crates/legion-daemon/src/main.rs:96-124 | load, construct and reapply is the transition system's restart |
| Store.StateFile.Save | crates/legion-daemon/src/state.rs:50-61 | the state file becomes the whole new state or is unchanged; what is left in the temporary file for every way of failing |
| Store.ReplayLimit | crates/legion-daemon/src/state.rs:64-66 | every remembered limit is the initial one or one recorded under its key |
| Reapply.RestoredLimits | crates/legion-daemon/src/iface.rs:72-97 | with Custom recorded and accepted, every recorded known limit its attribute can take is its current value afterwards, whatever else fails |
| Reapply.RestoredProfile | crates/legion-daemon/src/iface.rs:73-78 | the recorded profile, if accepted, is the active one after the whole pass |
| Reapply.RestoredMode | crates/legion-daemon/src/iface.rs:80-85 | the recorded charge mode, in any letter case, is active after the whole pass, if accepted, exactly when the list of types can be read |
| Reapply.UnrecordedUntouched | crates/legion-daemon/src/iface.rs:72-85 | with no profile on record no profile file changes, and with no charge mode on record the charge types do not |
| Reapply.NothingToReapply | crates/legion-daemon/src/iface.rs:72-97 | a state that holds nothing changes nothing |
| Reapply.RestoredValue | crates/legion-daemon/src/iface.rs:87-96 | after the pass each attribute whose directory a recorded known limit names reads that limit exactly if it could be written under the restored profile; every other attribute reads as before |
| Reapply.ComesBackExactly | crates/legion-daemon/src/iface.rs:72-97 | what an attribute of any name reads after the pass: its recorded limit exactly if it is one of the three known ones, within bounds, not refused, and no gate is in force or the profile step ends in Custom; else what it read before |
| Reapply.ProfileKeptExactly | crates/legion-daemon/src/state.rs:5-7 | the active profile survives the pass exactly if no profile is recorded, the kernel refuses it, or it is the active one |
| Reapply.LimitUnaffectedExactly | crates/legion-daemon/src/state.rs:5-7 | restoring the profile makes no difference to a recorded limit exactly if there is no gate, or Custom is active both before and after that step or neither |
| Reapply.LimitsLeftAlone | crates/legion-daemon/src/iface.rs:91-95 | with another profile recorded and accepted and the gate in force, no attribute changes at all |
| Reapply.LimitsFirstLost | crates/legion-daemon/src/iface.rs:72-97 | why the profile is restored before the limits: with the gate in force, outside Custom a pass over the limits changes nothing |
| Example.UndoneByReapplying | crates/legion-daemon/src/iface.rs:72-97 | on a laptop reset to Balanced and to another limit, the pass restores both, and would not with the limits first |
| Example.NotRestored | crates/legion-daemon/src/state.rs:3-7 | a run from a first start: Balanced set, Fn+Q to Custom, a limit set and remembered, the limit forgotten by the firmware, a resume; the laptop is in Balanced without the limit, where a pass without the profile would have left it in Custom with it |
| Example.OtherNotRestored | crates/legion-daemon/src/iface.rs:88-90 | such a run for the attribute `gpu_nv_ctgp`: accepted, remembered, forgotten, not restored |
| Reapply.ReappliedFrame | crates/legion-daemon/src/iface.rs:72-97 | only what is on record is written: the selected device's profile, the charge types, and the known limits; and the selection stays |
| Reapply.EnumeratesExactly | crates/legion-daemon/src/iface.rs:87 | every sequence with each recorded key once is a walk the results cover |
| Reapply.ReapplyOrderIrrelevant | crates/legion-daemon/src/iface.rs:87-96 | with canonical keys every order of the limits gives the same sysfs |
| Reapply.ReapplyTwice | crates/legion-daemon/src/iface.rs:72-97 | reapplying again, in any order, changes nothing |
| Reapply.LimitsAtOnce | crates/legion-daemon/src/iface.rs:87-96 | writing the known limits one by one is writing all acceptable ones side by side |
| Reapply.RacedLimitsAccepted | crates/legion-daemon/src/iface.rs:87-96 | with the firmware acting before any of its writes, a pass still writes only recorded known limits, within bounds, and none out of Custom under the gate |
| Reapply.RacedLimitsUndisturbed | crates/legion-daemon/src/iface.rs:87-96 | if the firmware does not act, that pass is the plain one |
| Reapply.WantsExact | crates/legion-hw/src/firmware_attrs.rs:63-69 | a directory is to be written exactly when it is a known limit's and that limit's key is on record, with that key's watts |
| Watch.ProfileWatcher.NextChange | crates/legion-daemon/src/watch.rs:54-80 | the loop reports the first wake-up that is news, keeps what it read, and loses nothing when its wait is dropped |
| Watch.Serve | crates/legion-daemon/src/main.rs:155-163 | over any wake-ups, failed reads and cancellations, what is reported is the destuttering of what was read |
| Watch.Open | crates/legion-hw/src/profile_watch.rs:43-49 | a watcher exists exactly if the profile can be read when it is opened, and follows the selected device's file |
| Example.Unwatched | crates/legion-daemon/src/watch.rs:27-38 | a device whose profile file holds no name is there to watch, and is not watched |
| Watch.DestutterShape | crates/legion-daemon/src/watch.rs:71-76 | no two adjacent reports are equal, and the last report is the last value read |
| Watch.DestutterCovers | crates/legion-daemon/src/watch.rs:71-76 | repeating each report some positive number of times gives back all that was read |
| Watch.DestutterUnique | crates/legion-daemon/src/watch.rs:71-76 | and no other sequence without adjacent repeats does |
| Converge.CurrentExactly | crates/legion-daemon/src/main.rs:157-178 | over every interleaving clients stay current exactly if no wake-up is swallowed, and no last signal fails, while they see something else |
| Converge.Converges | crates/legion-daemon/src/watch.rs:71-76 | if a report's signal is sent and carries what the watcher read, no direct signal is followed by a wake-up back at `last` with clients elsewhere, and reads work, then from the first report on clients and watcher agree with the hardware or something is on its way |
| Converge.NoReturnSuffices | crates/legion-daemon/src/iface.rs:181 | the second rule follows if, after a direct signal, the profile does not return to `last` unless clients already show it |
| Converge.StayingIsAllowed | crates/legion-daemon/src/main.rs:171-177 | a resume or setter that stays at the last reported profile keeps every rule |
| Converge.PressingIsAllowed | crates/legion-daemon/src/main.rs:157-163 | an ordinary Fn+Q keeps every rule and ends with everyone at the new profile |
| Converge.SettingIsAllowed | crates/legion-daemon/src/iface.rs:176-181 | so does a profile set through the daemon |
| Converge.PressingOnIsAllowed | crates/legion-daemon/src/main.rs:157-163 | so does Fn+Q right after that, to another profile |
| Converge.LiveReadLoses | crates/legion-daemon/src/iface.rs:102-104 | a run that breaks only the first rule loses a change: the signal re-reads a passing profile and the return is swallowed |
| Converge.UnsentLoses | crates/legion-daemon/src/main.rs:160-162 | so does a signal that cannot be sent, which is only logged |
| Converge.DirectSignalLoses | crates/legion-daemon/src/iface.rs:181 | a run that breaks only the second rule loses a change: after a direct signal the return to the last report is swallowed |
| Converge.UnreadableLoses | crates/legion-daemon/src/watch.rs:77 | a run that breaks only the third rule loses a change: the event is spent on one failed read of a file that holds the new profile, and until another event comes clients keep the old one |
| Converge.ReportHeals | crates/legion-daemon/src/watch.rs:71-76 | from the next report on, whatever was lost before it and over every run that keeps the rules after it, clients and watcher agree with the hardware or something is on its way |
| Converge.NoReportNoHealing | crates/legion-daemon/src/watch.rs:72 | a change that is over before the watcher wakes is no report and heals nothing |
| Live.Simulates | crates/legion-daemon/src/main.rs:155-179 | every run of daemon, firmware, watcher and signals together is, to clients, a run of the small protocol, while the device stays selected |
| Live.ClientsConverge | crates/legion-daemon/src/main.rs:155-179 | convergence of the whole system under the three rules |
| Live.ClientsConvergeWithoutReturns | crates/legion-daemon/src/main.rs:155-179 | the same, asking only that the profile does not return to `last` behind the clients' backs |
| Live.Realises | crates/legion-daemon/src/main.rs:155-179 | conversely, every run of the small protocol whose direct signals find a readable profile is a run of the whole system, from any quiet moment and whatever the daemon remembers, with no more than Fn+Q presses and setters the kernel takes |
| Live.SystemLoses | crates/legion-daemon/src/watch.rs:71-77 | from any quiet system, whatever its daemon remembers, runs that keep all rules but one, or but the two on returns, and end with clients out of date and nothing on its way |
| Example.ChangesLost | crates/legion-daemon/src/watch.rs:71-77 | such runs of a daemon from its first start |
| Live.DetachedLoses | crates/legion-hw/src/profile_watch.rs:38-42 | once another handler is selected, a watcher hears nothing of its profile, and clients stay out of date |
| Example.PluggedLoses | crates/legion-hw/src/profile.rs:131-133 | such a run: a gamezone handler loads after the watcher is opened |
| Live.UpToDateExactly | crates/legion-daemon/src/main.rs:155-179 | the exact condition for clients to stay up to date, for the whole system |
| Live.SetterInforms | crates/legion-daemon/src/iface.rs:181-183 | at the end of a SetProfile, whatever the firmware did meanwhile, the caller is told of success exactly if clients are sent the profile as it then is |
| Live.OtherStepsSilent | crates/legion-daemon/src/iface.rs:181-182 | no other step of the daemon changes what clients see of the profile |
| Live.ResumeInforms | crates/legion-daemon/src/main.rs:171-177 | a resume owes its clients a signal, the loop does nothing before it is sent or fails, and sent it tells them the profile of the reapplied machine |
| Live.OnlyResumesAnnounce | crates/legion-daemon/src/main.rs:165-178 | that signal is owed after a resume and at no other time |
| Live.SetterPlays | crates/legion-daemon/src/iface.rs:169-184 | undisturbed, the six moves of an accepted SetProfile serve the request, are one change and one direct signal to the small protocol, and leave clients with the profile set |
| Discovery.DeviceDir | crates/legion-hw/src/profile.rs:134-144 | the one-pass scan with a fallback finds the first gamezone entry of the sorted listing, else its first entry |
| Discovery.DeviceIsLeast | crates/legion-hw/src/profile.rs:134-144 | the device is exactly the least gamezone entry, or the least entry if there is none; none only for an empty class |
| Discovery.GamezoneExactly | crates/legion-hw/src/profile.rs:23-138 | a gamezone handler is one whose trimmed name is the upstream driver's |
| Discovery.GetProfileExactly | crates/legion-hw/src/profile.rs:172-175 | the active profile for every content of the file, and the two errors |
| Discovery.DeviceIgnoresOrder | crates/legion-hw/src/sysfs.rs:84-95 | the device depends on the set of handlers, not on the order they are read in |
| Discovery.OtherHandlersIgnored | crates/legion-hw/src/profile.rs:3-12 | once there is a gamezone handler, other handlers never change the answer |
| Discovery.StaysSelectedExactly | crates/legion-hw/src/profile.rs:131-144 | when handlers are added the selected one stays selected exactly if no new one outranks it, as a gamezone or by name |
| Hardware.OneDevice | crates/legion-hw/src/profile.rs:147-181 | what is set is what every accessor reads back, all from one device, and no other file changes |
| Hardware.ChoicesExact | crates/legion-hw/src/profile.rs:163-169 | the advertised profiles are the words of the device's list, in order; one unknown word leaves none |
| Hardware.WriteProfile | crates/legion-hw/src/profile.rs:178-181 | the write goes to the device found by the scan |
| Hardware.SetThenGetMode | crates/legion-hw/src/battery.rs:127-136 | an accepted mode is read back exactly when the list could be read, and only the list changes |
| Example.SetButUnreadable | crates/legion-hw/src/battery.rs:96-136 | with `[Standard] Fast Turbo` the mode Fast is accepted and still cannot be read |
| Hardware.WriteByName | crates/legion-hw/src/firmware_attrs.rs:167-179 | missing, unreadable and out-of-range limits are refused before the kernel is asked |
| Hardware.WriteThenRead | crates/legion-hw/src/firmware_attrs.rs:167-179 | an accepted limit was in range and, where the gate is in force, in Custom, and reads back as written; no other attribute changes; a failure changes nothing |
| Hardware.WriteThenList | crates/legion-hw/src/firmware_attrs.rs:146-151 | after a write the listing differs in the current value of that directory's entry only |
| Hardware.SetThenFind | crates/legion-daemon/src/iface.rs:293-300 | for every accepted spelling the entry under the recorded key shows exactly the value set |
| Kernel.SelectTwice | crates/legion-hw/src/battery.rs:134-136 | selecting a charge type again changes nothing, accepted or not |
| Attrs.DirectoryReadsBack | crates/legion-hw/src/firmware_attrs.rs:108-138 | a directory of printed numbers reads back as those numbers, with the defaults for bounds that are absent or too large and an error for such a current value |
| Attrs.ListingExact | crates/legion-hw/src/firmware_attrs.rs:100-105 | the listing is sorted and holds exactly the readable directories |
| Attrs.ListingIgnoresOrder | crates/legion-hw/src/sysfs.rs:84-95 | the listing does not depend on the order the kernel returns directories in |
| Attrs.PlainNamesExactly | crates/legion-hw/src/firmware_attrs.rs:63-69 | which directory names are not plain: those that would be taken for a known limit without being its directory |
| Attrs.PlainKeys | crates/legion-hw/src/firmware_attrs.rs:113-117 | with plain directory names, writing under a listed key is writing to the directory listed |
| Attrs.FindListed | crates/legion-hw/src/firmware_attrs.rs:146-151 | with plain directory names the entry under a directory's key is that directory's |
| Battery.ParseChargeTypes | crates/legion-hw/src/battery.rs:96-114 | the loop that pushes modes and overwrites the active one computes the parse |
| Battery.ChargeTypesExact | crates/legion-hw/src/battery.rs:96-114 | for every string: it parses exactly when there is a token and every token names a mode; the result has one mode per token, in order, and the last bracketed one is active |
| Battery.BracketsExactly | crates/legion-hw/src/battery.rs:100-103 | only a matched pair of brackets marks a token and is taken off |
| Battery.GetModeExactly | crates/legion-hw/src/battery.rs:127-131 | for every content of the file: the active mode is that of the last bracketed token, if all tokens name modes; else the error, a list without a mark included |
| Battery.ChargeTypesRoundTrip | crates/legion-hw/src/battery.rs:96-114 | modes rendered with brackets and any spacing parse back to the same list, order and active mode |
| Battery.DocumentedList | crates/legion-hw/src/battery.rs:94-114 | the documented list, word for word, rendered and parsed |
| Battery.MoveBracketParses | crates/legion-hw/src/battery.rs:96-114 | after the kernel moves the bracket the parse has the same modes and the new active one |
| Names.DoubleNormalisation | crates/legion-ctl/src/commands.rs:55-62 | a name parsed by the client and again by the daemon is a name parsed once, for every string and all three kinds |
| Names.ProfileUserExact | crates/legion-hw/src/profile.rs:91-97 | a string names a profile exactly when, trimmed and folded, it is one of its two spellings |
| Names.ProfileSysfsExact | crates/legion-hw/src/profile.rs:81-86 | the kernel's string names exactly one profile |
| Names.ProfileReparses | crates/legion-hw/src/profile.rs:48-56 | a profile's kernel string, with or without its newline, is parsed as that profile |
| Names.ProfileSpellingsDisjoint | crates/legion-hw/src/profile.rs:48-67 | no spelling belongs to two profiles, so the first match is the only one |
| Names.ChargeUserExact | crates/legion-hw/src/battery.rs:73-83 | a string names a charge mode exactly when, folded, it is one of its spellings |
| Names.ChargeSysfsExact | crates/legion-hw/src/battery.rs:63-69 | a kernel token names a mode exactly when it is its spelling in any letter case |
| Names.ChargeReparses | crates/legion-hw/src/battery.rs:36-42 | a mode's kernel spelling is parsed as that mode by both parsers |
| Names.PptKeyExact | crates/legion-hw/src/firmware_attrs.rs:63-69 | a string names a limit exactly when, trimmed and folded, it is its key or its directory |
| Names.PptReparses | crates/legion-hw/src/firmware_attrs.rs:36-51 | a limit's key and directory are parsed as that limit |
| Names.CanonicalDistinct | crates/legion-daemon/src/iface.rs:87-96 | two canonical keys that name one limit are one key |
| Names.PaddingAndCase | crates/legion-hw/src/profile.rs:91-97 | white space around a name and the case of its ASCII letters never matter, to any of the four parsers |
| Names.AcceptedSpellings | crates/legion-hw/src/firmware_attrs.rs:63-69 | the parsers accept, but for letter case and surrounding white space, exactly the spellings of each name |
| Names.DocumentedProfiles | crates/legion-hw/src/profile.rs:48-97 | each profile's two spellings, word for word |
| Names.DocumentedModes | crates/legion-hw/src/battery.rs:36-83 | each charge mode's spellings, word for word |
| Names.DocumentedLimits | crates/legion-hw/src/firmware_attrs.rs:36-69 | each limit's key and directory, word for word |
| Names.SeparatorsInterchange | crates/legion-hw/src/battery.rs:74-74 | dash, underscore and space are interchangeable within a charge mode's name |
| Text.ParsePrint | crates/legion-hw/src/sysfs.rs:51-58 | printing and parsing a number are inverse exactly up to 32 bits, trimming included; beyond, parsing fails |
| Text.ParseU32Exact | crates/legion-hw/src/sysfs.rs:51-58 | what a 32-bit number is read from: an optional plus sign and digits that denote it |
| Text.InFigures | crates/legion-hw/src/sysfs.rs:51-58 | base ten, in figures |
| Text.InBits | crates/legion-hw/src/sysfs.rs:51-58 | 32 bits, in figures |
| Text.LowerExactly | crates/legion-hw/src/profile.rs:92 | folding forgets the case of ASCII letters and nothing else |
| Text.IsSpaceExactly | crates/legion-hw/src/sysfs.rs:98-101 | white space is the twenty-five characters of the Unicode property |
| Text.TrimPadded | crates/legion-hw/src/sysfs.rs:98-101 | white space around a value is irrelevant to what is read |
| Listing.SortSorts | crates/legion-hw/src/sysfs.rs:84-95 | a listing is sorted |
| Listing.LeqExactly | crates/legion-hw/src/sysfs.rs:92 | the order is the dictionary order: a prefix first, else the first difference decides |
| Listing.SortIgnoresOrder | crates/legion-hw/src/sysfs.rs:84-95 | it is one and the same for every read order |
| Ctl.PptCommand | crates/legion-ctl/src/commands.rs:120-175 | the command with its early returns does what the specification of its path says, to daemon or sysfs |
| Ctl.ProfileCommand | crates/legion-ctl/src/commands.rs:33-68 | the same |
| Ctl.BatteryCommand | crates/legion-ctl/src/commands.rs:179-212 | the same |
| Ctl.PptPathsAgree | crates/legion-ctl/src/commands.rs:120-175 | for every spelling and value, with plain names: under the gate both paths end alike unless a limit is dispatched while the profile is unreadable, and leave the same sysfs even then; without it they differ outside Custom unless the kernel refuses that value for the daemon's reason |
| Ctl.PptPlanByDirectory | crates/legion-ctl/src/commands.rs:120-156 | a name is unknown exactly if the directory it stands for is not a readable attribute; otherwise that directory's range decides, and its recorded key is what is dispatched |
| Ctl.PptPathsExactly | crates/legion-ctl/src/commands.rs:158-172 | for any directory names, with or without the gate, the exact condition under which the paths agree |
| Ctl.ShortKeyDirectory | crates/legion-ctl/src/commands.rs:164-167 | plain names are needed: a directory named like a short key makes the paths differ |
| Example.PathsDiffer | crates/legion-ctl/src/commands.rs:158-172 | a laptop with such a directory, on which one command gets two different errors |
| Ctl.SetThenShow | crates/legion-ctl/src/commands.rs:133-156 | a limit set is shown by the next command, under any spelling, with the rest of its entry as before |
| Ctl.SetThenShowServed | crates/legion-ctl/src/commands.rs:133-163 | the same through the daemon |
| Ctl.UnknownNames | crates/legion-ctl/src/commands.rs:52-62 | a name that is none is an invalid argument on either path and goes no further |
| Ctl.SetThenShowProfile | crates/legion-ctl/src/commands.rs:33-68 | a profile that has been set is shown next, under the kernel's name |
| Ctl.SetThenShowBattery | crates/legion-ctl/src/commands.rs:179-212 | a charge mode that has been set is shown next, if the list can be read |
| Ctl.ListsEverything | crates/legion-ctl/src/commands.rs:120-131 | without a name either path lists every readable attribute in order, or says there is none |
| Ctl.ProfilePathsAgree | crates/legion-ctl/src/commands.rs:33-68 | setting leaves the same sysfs for every argument and ends alike unless the profile is set and the daemon's signal fails; showing agrees exactly when the profile can be read |
| Ctl.BatteryPathsAgree | crates/legion-ctl/src/commands.rs:179-212 | the same for charge modes |
| Example.UnreadableAnswers | crates/legion-ctl/src/commands.rs:3-5 | a laptop on which showing the profile, showing the charge mode and setting a limit all end differently with and without the daemon |
| Slider.PanicsExactly | crates/legion-gui/src/state.rs:23-35 | building a slider panics exactly on a range that straddles 2^31; otherwise the value is within the bounds, which differ but for one corner |
| Slider.ShowsTheValueExactly | crates/legion-gui/src/state.rs:23-35 | the slider stands at the clamped value exactly when value and range are on one side of 2^31 |
| Slider.EndsExactly | crates/legion-gui/src/state.rs:23-35 | the ends of every slider that can be built, degenerate ranges included, and its value between them |
| Slider.CastExactly | crates/legion-gui/src/state.rs:24-33 | the cast keeps a value modulo 2^32, within 32 signed bits |
| Slider.MissingMaximum | crates/legion-hw/src/firmware_attrs.rs:128-133 | an attribute without a readable maximum panics unless its minimum is past 2^31 |
| Slider.SliderPanicsExactly | crates/legion-gui/src/state.rs:38-44 | the slider of a known limit panics exactly when its own readable directory straddles, whatever else is listed |
| Slider.FoundSlider | crates/legion-gui/src/state.rs:38-44 | otherwise it is that directory's slider, or all zeros without one |
| Example.SliderPanics | crates/legion-gui/src/state.rs:23-44 | a laptop whose limit has no maximum panics the dashboard |
| Tray.EqExact | crates/legion-gui/src/tray.rs:312-323 | the comparison written by hand is equality of all fields |
| Tray.BlankExactly | crates/legion-gui/src/tray.rs:302-324 | before the first snapshot the tray shows and offers nothing, and only a snapshot that does the same is skipped |
| Tray.MenuExactly | crates/legion-gui/src/tray.rs:117-257 | which groups and switches the menu of a snapshot has, what they offer and what they mark |
| Tray.MenuAsks | crates/legion-gui/src/tray.rs:117-257 | what a shown menu asks of the daemon: the entry chosen, or the opposite of a switch |
| Tray.TrayHandle.Update | crates/legion-gui/src/tray.rs:284-300 | a skipped or performed update leaves the tray showing the snapshot, and the desktop hears of it only if it is news |
| Tray.Feed | crates/legion-gui/src/main.rs:122-126 | over any series handled one at a time the tray shows after each snapshot what always updating would, with one push per change |
| Tray.SettlesOnTheLatest | crates/legion-gui/src/tray.rs:284-300 | overlapping updates sent in order settle on the latest snapshot |
| Tray.SwappedUpdatesStick | crates/legion-gui/src/main.rs:119-126 | why the one caller awaits each update before the next: overlapping updates sent out of order, which so do not occur, would leave the older picture up for good |

## Left out

- Daemon.Daemon.ReapplyState: the firmware does not act between two writes of one pass; before and after it may do anything. What such a pass may write is `Reapply.RacedLimitsAccepted`.
- Ctl.PptPathsAgree: assumes that nothing changes between listing the limits and setting one; names that are paths (`../x`) and directories named by a short key are excluded, the latter with the counterexample `Ctl.ShortKeyDirectory`.
- Hardware.SetThenFind: excludes the same directories.
- Live.ClientsConverge: one daemon process while its device stays the selected one; a handler loaded later moves the property but not the open file. What follows a change of handler is `Live.DetachedLoses`. A signal reads the profile as the file holds it.
- State files written by hand with several names of one limit: the results on reapplying ask for canonical keys, which `Protocol.ReachableCanonical` gives for every file the daemon wrote.
- The bus, the reactor, polkit and logind: authorisation is a yes or no, a wake-up is a flag, and setters are serialised.
- The JSON text of the state file and of the listing, and power loss without a flush.
- Read errors other than a missing file; they are passed on like that one.
- Boolean toggles, keyboard backlight, CPU boost and fan mode: single writes with one check each.
- Capability probe, sensors, fans, battery statistics, labels, hints, colours, icons and pages.
- Whether a snapshot the dashboard receives is fresh, which depends on property caching in the bus library.
- Command line parsing, the single-instance socket, packaging and installation.
