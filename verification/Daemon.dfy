/** The daemon's interface object, updating its state in place. */
module Daemon {
  import opened Wrappers
  import opened Text
  import opened Names
  import opened Sysfs
  import opened Discovery
  import opened Kernel
  import opened Hardware
  import opened Store
  import opened Reapply
  import opened Protocol

  method WriteJob(root: SysRoot, job: Job) returns (r: Outcome)
    modifies root
    ensures root.m == AfterJob(old(root.m), job)
    ensures r == JobOutcome(old(root.m), job)
  {
    match job {
      case JobProfile(p) => r := WriteProfile(root, p);
      case JobMode(mode) => r := WriteMode(root, mode);
      case JobPpt(_, dir, watts) => r := WriteByName(root, dir, watts);
    }
  }

  class Daemon {
    const root: SysRoot
    const file: StateFile
    var state: State

    // What has happened, for the specification only.
    ghost var reply: Option<Reply>
    ghost var hist: seq<Rec>
    ghost var saved: nat
    ghost var synced: bool
    ghost var log: seq<Accepted>

    /** This object, its files and sysfs, between two calls. */
    ghost function Now(): World
      reads this, root, file
    {
      World(root.m, state, true, file.main, file.tmp, Idle, reply, hist, saved, synced, log)
    }

    /** Loading what is on disk, as a daemon that follows on from `before`. */
    constructor (root: SysRoot, file: StateFile, ghost before: World)
      requires before.saved <= |before.hist|
      ensures this.root == root && this.file == file
      ensures Now() == before.(m := root.m, mem := Load(file.main), alive := true, main := file.main, tmp := file.tmp,
                               pc := Idle, hist := before.hist[..before.saved], synced := true)
    {
      this.root := root;
      this.file := file;
      this.state := Load(file.main);
      this.reply := before.reply;
      this.hist := before.hist[..before.saved];
      this.saved := before.saved;
      this.synced := true;
      this.log := before.log;
    }

    /** Profile first, then charge mode, then every limit on record; failures are passed over. */
    method ReapplyState(order: seq<string>)
      requires Enumerates(order, state.ppt)
      modifies root
      ensures root.m == Reapplied(old(root.m), state, order)
    {
      hide AfterSetProfile, AfterSetMode, ReapplyLimits, ProfileFromSysfs, ChargeFromSysfs, Enumerates;
      if state.profile.Some? {
        var parsed := ProfileFromSysfs(state.profile.value);
        if parsed.Some? {
          var _ := WriteProfile(root, parsed.value);
        }
      }
      if state.batteryMode.Some? {
        var parsed := ChargeFromSysfs(state.batteryMode.value);
        if parsed.Some? {
          var _ := WriteMode(root, parsed.value);
        }
      }
      ReapplyAll(order);
    }

    method ReapplyAll(order: seq<string>)
      requires Enumerates(order, state.ppt)
      modifies root
      ensures forall k | k in order :: k in state.ppt
      ensures root.m == ReapplyLimits(old(root.m), state.ppt, order)
    {
      hide AfterWriteLimit, PptFromKey;
      WalkedKeys(order, state.ppt);
      var i := 0;
      while i < |order|
        invariant 0 <= i <= |order|
        invariant root.m == ReapplyLimits(old(root.m), state.ppt, order[..i])
      {
        var key := order[i];
        assert order[..i + 1][..i] == order[..i];
        var attr := PptFromKey(key);
        if attr.Some? {
          var _ := WriteByName(root, attr.value.DirName(), state.ppt[key]);
        }
        i := i + 1;
      }
      assert order[..i] == order;
    }

    /** Saving failures are logged and otherwise ignored. */
    method Persist(fate: SaveFate)
      modifies file, this`saved, this`synced
      ensures file.main == if fate.Saved? then Intact(state) else old(file.main)
      ensures file.tmp == match fate case TempFails(t) => t case RenameFails => Intact(state) case Saved => Absent
      ensures saved == if fate.Saved? then |hist| else old(saved)
      ensures synced == fate.Saved?
    {
      var ok := file.Save(state, fate);
      if ok {
        saved := |hist|;
      }
      synced := ok;
    }

    /** Recording a setting the kernel has accepted, and saving. */
    method Remember(r: Rec, ghost accepted: Accepted, fate: SaveFate)
      modifies file, this
      ensures state == Recorded(old(state), r)
      ensures file.main == if fate.Saved? then Intact(state) else old(file.main)
      ensures file.tmp == match fate case TempFails(t) => t case RenameFails => Intact(state) case Saved => Absent
      ensures reply == old(reply) && hist == old(hist) + [r] && log == old(log) + [accepted]
      ensures saved == (if fate.Saved? then |hist| else old(saved)) && synced == fate.Saved?
    {
      match r {
        case RecProfile(p) => state := state.(profile := Some(p.AsSysfs()));
        case RecMode(m) => state := state.(batteryMode := Some(m.AsSysfs()));
        case RecPpt(key, watts) => state := state.(ppt := state.ppt[key := watts]);
      }
      hist := hist + [r];
      log := log + [accepted];
      Persist(fate);
    }

    /** The closing signal of a setter; a failure to send it becomes the reply. */
    static function Announce(sent: bool): Reply {
      if sent then Ok(()) else Err(BusFailed)
    }

    /** The part of a setter after its checks: hardware first, memory and disk only if the kernel
        accepted the write, and the signal last. `race` is what the firmware does in between, if it acts. */
    method Perform(job: Job, race: Option<Machine>, closing: Closing) returns (r: Reply)
      modifies this, root, file
      ensures reply == Some(r)
      ensures var seen := if race.Some? then race.value else old(root.m);
              Now() == match JobOutcome(seen, job)
                       case Err(e) => old(Now()).(m := seen, reply := Some(Err(FromHw(e))))
                       case Ok(_) => Completed(old(Now()), seen, job, closing)
    {
      hide AfterJob, JobOutcome, Recorded, FromHw;
      ghost var checked := root.m;
      match race {
        case Some(after) => root.Interfere(after);
        case None =>
      }
      ghost var seen := root.m;
      var written := WriteJob(root, job);
      if written.Err? {
        FailedJob(seen, job);
        r := Err(FromHw(written.error));
      } else {
        Remember(JobRec(job), Accepted(job, checked, seen), closing.save);
        r := if job.JobPpt? then Ok(()) else Announce(closing.sent);
      }
      reply := Some(r);
    }

    method SetProfile(authorized: bool, value: string, race: Option<Machine>, closing: Closing) returns (r: Reply)
      modifies this, root, file
      ensures Now() == Served(old(Now()), authorized, Request.SetProfile(value), race, closing)
      ensures reply == Some(r)
    {
      ServedExactly(Now(), authorized, Request.SetProfile(value), race, closing);
      hide Served, Completed, FromHw, ProfileFromUser, JobOutcome;
      if !authorized {
        r := Err(NotAuthorized);
        reply := Some(r);
        return;
      }
      match ProfileFromUser(value) {
        case None =>
          r := Err(InvalidArgument);
          reply := Some(r);
        case Some(p) =>
          r := Perform(JobProfile(p), race, closing);
      }
    }

    method SetBatteryMode(authorized: bool, value: string, race: Option<Machine>, closing: Closing) returns (r: Reply)
      modifies this, root, file
      ensures Now() == Served(old(Now()), authorized, Request.SetBatteryMode(value), race, closing)
      ensures reply == Some(r)
    {
      ServedExactly(Now(), authorized, Request.SetBatteryMode(value), race, closing);
      hide Served, Completed, FromHw, ChargeFromUser, JobOutcome;
      if !authorized {
        r := Err(NotAuthorized);
        reply := Some(r);
        return;
      }
      match ChargeFromUser(value) {
        case None =>
          r := Err(InvalidArgument);
          reply := Some(r);
        case Some(mode) =>
          r := Perform(JobMode(mode), race, closing);
      }
    }

    method SetPpt(authorized: bool, attr: string, watts: u32, race: Option<Machine>, closing: Closing) returns (r: Reply)
      modifies this, root, file
      ensures Now() == Served(old(Now()), authorized, Request.SetPpt(attr, watts), race, closing)
      ensures reply == Some(r)
    {
      ServedExactly(Now(), authorized, Request.SetPpt(attr, watts), race, closing);
      hide Served, Completed, FromHw, GetProfile, RecordKey, WriteDir, JobOutcome;
      if !authorized {
        r := Err(NotAuthorized);
        reply := Some(r);
        return;
      }
      match GetProfile(root.m) {
        case Err(e) =>
          r := Err(FromHw(e));
          reply := Some(r);
        case Ok(current) =>
          if current != Custom {
            r := Err(CustomModeRequired);
            reply := Some(r);
          } else {
            r := Perform(JobPpt(RecordKey(attr), WriteDir(attr), watts), race, closing);
          }
      }
    }

    /** Reapplying after sleep. */
    method Resume(order: seq<string>)
      requires Enumerates(order, state.ppt)
      modifies root
      ensures Now() == Step(old(Now()), Event.Resume(order))
    {
      hide Reapplied;
      ReapplyState(order);
    }
  }

  /** Coming up: load, construct, reapply. `before` is the world as the last daemon left it. */
  method Start(root: SysRoot, file: StateFile, order: seq<string>, ghost before: World) returns (d: Daemon)
    requires !before.alive && before.pc == Idle && before.saved <= |before.hist|
    requires before.m == root.m && before.main == file.main && before.tmp == file.tmp
    requires Enumerates(order, Load(file.main).ppt)
    modifies root
    ensures fresh(d) && d.root == root && d.file == file
    ensures d.Now() == Step(before, Restart(order))
  {
    hide Reapplied;
    d := new Daemon(root, file, before);
    d.ReapplyState(order);
  }
}
