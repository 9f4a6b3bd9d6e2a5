/** Choosing a disk and writing to it: `workstation/w_linux.go`, and `Write` of `device/sd_flasher.go`. */
module Workstation {

  datatype MountInfo = MountInfo(deviceName: string, diskName: string, diskNameRaw: string, deviceSize: string)

  /** What the check of a file mode finds. */
  datatype Mode = Permitted | ReadOnly | Unreadable

  /** What the computer and the user were asked, in order: a listing of removable disks, the check of a file
      mode, a question, the download of the image, and the commands that touch a disk. */
  datatype Event =
    | Listed(disks: seq<MountInfo>)
    | Checked(disk: MountInfo, mode: Mode)
    | Asked(yes: bool)
    | Downloaded(ok: bool)
    | Dd(target: string, succeeded: bool)
    | Umount(target: string)
    | Eject(target: string)

  datatype Error = NoDisk | UnknownDisk | ModeUnknown | Locked

  datatype Attempt = Retry(error: Error) | GiveUp(error: Error) | Picked(disk: MountInfo)

  datatype Outcome = Refused(error: Error) | Declined | Started(jobFailed: bool)

  predicate Touches(e: Event) {
    e.Dd? || e.Umount? || e.Eject?
  }

  predicate TouchesNothing(run: seq<Event>) {
    forall e :: e in run ==> !Touches(e)
  }

  /** The computer and its user. Disks come and go, checks, commands and answers are as they like. */
  class Computer {
    var history: seq<Event>

    constructor ()
      ensures history == []
    {
      history := [];
    }

    method List() returns (found: seq<MountInfo>)
      modifies this
      ensures history == old(history) + [Listed(found)]
    {
      found := *;
      history := history + [Listed(found)];
    }

    /** help.FileModeMask for writing. */
    method Check(disk: MountInfo) returns (mode: Mode)
      modifies this
      ensures history == old(history) + [Checked(disk, mode)]
    {
      mode := *;
      history := history + [Checked(disk, mode)];
    }

    method YesNoDialog() returns (yes: bool)
      modifies this
      ensures history == old(history) + [Asked(yes)]
    {
      yes := *;
      history := history + [Asked(yes)];
    }

    method RunDd(target: string) returns (ok: bool)
      modifies this
      ensures history == old(history) + [Dd(target, ok)]
    {
      ok := *;
      history := history + [Dd(target, ok)];
    }

    method RunUmount(target: string) returns (ok: bool)
      modifies this
      ensures history == old(history) + [Umount(target)]
    {
      ok := *;
      history := history + [Umount(target)];
    }

    method RunEject(target: string) returns (ok: bool)
      modifies this
      ensures history == old(history) + [Eject(target)]
    {
      ok := *;
      history := history + [Eject(target)];
    }

    /** The download of the image from the virtual machine. */
    method Download() returns (ok: bool)
      modifies this
      ensures history == old(history) + [Downloaded(ok)]
    {
      ok := *;
      history := history + [Downloaded(ok)];
    }
  }

  // ----- loops that ask before they try again -----

  const DISK_SELECTION_TRIES := 3
  const WRITE_ATTEMPTS := 3

  /** Attempts one after the other; before each later one the user agrees to continue. */
  function Retried(tries: seq<seq<Event>>): seq<Event> {
    if tries == [] then []
    else Retried(tries[..|tries| - 1]) + (if |tries| > 1 then [Asked(true)] else []) + tries[|tries| - 1]
  }

  /** Such a loop ends with the first attempt that need not be repeated. After one that must be, it ends only
      when the user stops it or no try is left. */
  ghost predicate LoopOf(run: seq<Event>, tries: seq<seq<Event>>, most: nat, stopped: bool, repeat: bool) {
    && 1 <= |tries| <= most
    && run == Retried(tries) + (if stopped then [Asked(false)] else [])
    && (stopped ==> repeat && |tries| < most)
    && (repeat ==> stopped || |tries| == most)
  }

  lemma {:induction false} RetriedSnoc(tries: seq<seq<Event>>, t: seq<Event>)
    ensures Retried(tries + [t]) == Retried(tries) + (if tries != [] then [Asked(true)] else []) + t
  {
    assert (tries + [t])[..|tries|] == tries;
  }

  // ----- the choice of a disk -----

  /** The first disk of that name, or the number of disks. */
  function FirstNamed(disks: seq<MountInfo>, name: string, i: nat): (k: nat)
    ensures i <= |disks| ==> i <= k <= |disks|
    ensures k < |disks| ==> disks[k].diskName == name
    ensures i <= |disks| ==> forall j :: i <= j < k ==> disks[j].diskName != name
    decreases |disks| - i
  {
    if i >= |disks| then |disks| else if disks[i].diskName == name then i else FirstNamed(disks, name, i + 1)
  }

  predicate Unknown(disks: seq<MountInfo>, wanted: string) {
    disks != [] && wanted != "" && FirstNamed(disks, wanted, 0) == |disks|
  }

  /** A disk of the listing, namely the first of the given name if there is one. */
  predicate Choosable(disks: seq<MountInfo>, wanted: string, disk: MountInfo) {
    && disk in disks
    && (wanted != "" ==> var k := FirstNamed(disks, wanted, 0); k < |disks| && disk == disks[k])
  }

  /** What one attempt saw, with what it came to. */
  predicate Tried(t: seq<Event>, wanted: string, attempt: Attempt) {
    match attempt
    case Retry(error) =>
      if error.NoDisk? then t == [Listed([])] else error.Locked? && CheckedAs(t, wanted, ReadOnly)
    case GiveUp(error) =>
      if error.UnknownDisk? then |t| == 1 && t[0].Listed? && Unknown(t[0].disks, wanted)
      else error.ModeUnknown? && CheckedAs(t, wanted, Unreadable)
    case Picked(disk) => CheckedAs(t, wanted, Permitted) && t[1].disk == disk
  }

  /** A listing, and the check of a disk chosen from it. */
  predicate CheckedAs(t: seq<Event>, wanted: string, mode: Mode) {
    |t| == 2 && t[0].Listed? && t[1].Checked? && t[1].mode == mode && Choosable(t[0].disks, wanted, t[1].disk)
  }

  predicate InVain(t: seq<Event>, wanted: string) {
    Tried(t, wanted, Retry(NoDisk)) || Tried(t, wanted, Retry(Locked))
  }

  /** The run of the selection loop, with what it came to: every attempt but the last found no disk or a locked
      one. */
  ghost predicate Selection(run: seq<Event>, wanted: string, result: Attempt) {
    exists tries, stopped :: SelectionOf(run, tries, stopped, wanted, result)
  }

  ghost predicate SelectionOf(run: seq<Event>, tries: seq<seq<Event>>, stopped: bool, wanted: string, result: Attempt) {
    && LoopOf(run, tries, 3, stopped, result.Retry?)
    && (forall i :: 0 <= i < |tries| - 1 ==> InVain(tries[i], wanted))
    && Tried(tries[|tries| - 1], wanted, result)
  }

  /** The last two events are a listing and the check of a disk chosen from it, which may be written to. */
  ghost predicate Chosen(run: seq<Event>, wanted: string, disk: MountInfo) {
    |run| >= 2 && Tried(run[|run| - 2..], wanted, Picked(disk))
  }

  lemma {:induction false} SelectionIsChosen(run: seq<Event>, wanted: string, disk: MountInfo)
    requires Selection(run, wanted, Picked(disk))
    ensures Chosen(run, wanted, disk)
  {
    var tries, stopped :| SelectionOf(run, tries, stopped, wanted, Picked(disk));
    var last := tries[|tries| - 1];
    assert run == Retried(tries[..|tries| - 1]) + (if |tries| > 1 then [Asked(true)] else []) + last;
    assert run[|run| - 2..] == last;
  }

  /** The selection loop before it ends: attempts in vain, the last of which came to `result`. */
  ghost predicate InVainSoFar(run: seq<Event>, tries: seq<seq<Event>>, wanted: string, result: Attempt) {
    && run == Retried(tries) && TouchesNothing(run) && result.Retry?
    && (forall i :: 0 <= i < |tries| ==> InVain(tries[i], wanted))
    && (tries != [] ==> Tried(tries[|tries| - 1], wanted, result))
  }

  lemma {:induction false} NextAttempt(run: seq<Event>, tries: seq<seq<Event>>, wanted: string, before: Attempt,
                                       asked: seq<Event>, t: seq<Event>, result: Attempt)
    requires InVainSoFar(run, tries, wanted, before) && |tries| < DISK_SELECTION_TRIES && Tried(t, wanted, result)
    requires asked == if tries != [] then [Asked(true)] else []
    ensures TouchesNothing(run + asked + t)
    ensures if result.Retry? then InVainSoFar(run + asked + t, tries + [t], wanted, result)
            else Selection(run + asked + t, wanted, result)
  {
    RetriedSnoc(tries, t);
    AttemptTouchesNothing(t, wanted, result);
    if !result.Retry? {
      assert SelectionOf(run + asked + t, tries + [t], false, wanted, result);
    }
  }

  lemma {:induction false} AttemptTouchesNothing(t: seq<Event>, wanted: string, attempt: Attempt)
    requires Tried(t, wanted, attempt)
    ensures TouchesNothing(t)
  {
    assert forall i :: 0 <= i < |t| ==> !Touches(t[i]);
  }

  lemma {:induction false} LastAttempt(run: seq<Event>, tries: seq<seq<Event>>, wanted: string, result: Attempt)
    requires InVainSoFar(run, tries, wanted, result) && 1 <= |tries| <= DISK_SELECTION_TRIES
    ensures TouchesNothing(run + [Asked(false)])
    ensures |tries| < DISK_SELECTION_TRIES ==> Selection(run + [Asked(false)], wanted, result)
    ensures |tries| == DISK_SELECTION_TRIES ==> Selection(run, wanted, result)
  {
    if |tries| < DISK_SELECTION_TRIES {
      assert SelectionOf(run + [Asked(false)], tries, true, wanted, result);
    } else {
      assert SelectionOf(run, tries, false, wanted, result);
    }
  }

  // ----- the runs of dd -----

  /** Runs of dd on one disk, all but the last of which failed; `ok` says how the last one ended. */
  ghost predicate DdRuns(run: seq<Event>, target: string, ok: bool) {
    exists tries, stopped :: DdRunsOf(run, tries, stopped, target, ok)
  }

  ghost predicate DdRunsOf(run: seq<Event>, tries: seq<seq<Event>>, stopped: bool, target: string, ok: bool) {
    && LoopOf(run, tries, 3, stopped, !ok)
    && (forall i :: 0 <= i < |tries| - 1 ==> tries[i] == [Dd(target, false)])
    && tries[|tries| - 1] == [Dd(target, ok)]
  }

  ghost predicate DdFailedSoFar(run: seq<Event>, tries: seq<seq<Event>>, target: string) {
    run == Retried(tries) && forall i :: 0 <= i < |tries| ==> tries[i] == [Dd(target, false)]
  }

  lemma {:induction false} NextDd(run: seq<Event>, tries: seq<seq<Event>>, target: string, asked: seq<Event>, ok: bool)
    requires DdFailedSoFar(run, tries, target) && |tries| < WRITE_ATTEMPTS
    requires asked == if tries != [] then [Asked(true)] else []
    ensures var run', t := run + asked + [Dd(target, ok)], [Dd(target, ok)];
            if ok then DdRuns(run', target, true) else DdFailedSoFar(run', tries + [t], target)
  {
    var t := [Dd(target, ok)];
    RetriedSnoc(tries, t);
    if ok {
      assert DdRunsOf(run + asked + t, tries + [t], false, target, true);
    }
  }

  lemma {:induction false} LastDd(run: seq<Event>, tries: seq<seq<Event>>, target: string)
    requires DdFailedSoFar(run, tries, target) && 1 <= |tries| <= WRITE_ATTEMPTS
    ensures |tries| < WRITE_ATTEMPTS ==> DdRuns(run + [Asked(false)], target, false)
    ensures |tries| == WRITE_ATTEMPTS ==> DdRuns(run, target, false)
  {
    if |tries| < WRITE_ATTEMPTS {
      assert DdRunsOf(run + [Asked(false)], tries, true, target, false);
    } else {
      assert DdRunsOf(run, tries, false, target, false);
    }
  }

  class Linux {
    const Disk: string
    const computer: Computer
    var writable: bool
    var mount: MountInfo
    var mounts: seq<MountInfo>

    /** newWorkstation */
    constructor (disk: string, computer: Computer)
      ensures Disk == disk && this.computer == computer && writable && mounts == []
    {
      Disk, this.computer, writable, mounts := disk, computer, true, [];
      mount := MountInfo("", "", "", "");
    }

    /** Whatever removable disks there are at the moment; none is an error and leaves the last listing. */
    method ListRemovableDisk() returns (err: bool)
      modifies this`mounts, computer
      ensures err ==> mounts == old(mounts) && computer.history == old(computer.history) + [Listed([])]
      ensures !err ==> mounts != [] && computer.history == old(computer.history) + [Listed(mounts)]
    {
      var found := computer.List();
      if |found| == 0 {
        return true;
      }
      mounts := found;
      return false;
    }

    /** The chosen disk of the last listing, by menu or by name. */
    method ChooseDisk() returns (known: bool, dev: MountInfo)
      requires mounts != []
      ensures if known then Choosable(mounts, Disk, dev) else Unknown(mounts, Disk)
    {
      dev := mounts[0];
      if |Disk| == 0 {
        var num :| 0 <= num < |mounts|;
        return true, mounts[num];
      }
      for i := 0 to |mounts|
        invariant FirstNamed(mounts, Disk, 0) == FirstNamed(mounts, Disk, i)
      {
        if mounts[i].diskName == Disk {
          return true, mounts[i];
        }
      }
      return false, dev;
    }

    /** One attempt at a disk: a listing, a choice and the check of its mode. */
    method TryDisk() returns (attempt: Attempt, ghost run: seq<Event>)
      modifies this`mounts, this`mount, computer
      ensures computer.history == old(computer.history) + run
      ensures Tried(run, Disk, attempt)
      ensures mount == if attempt.Picked? then attempt.disk else old(mount)
    {
      var none := ListRemovableDisk();
      if none {
        return Retry(NoDisk), [Listed([])];
      }
      run := [Listed(mounts)];
      var known, dev := ChooseDisk();
      if !known {
        return GiveUp(UnknownDisk), run;
      }
      var mode := computer.Check(dev);
      run := run + [Checked(dev, mode)];
      if !mode.Permitted? {
        if mode.Unreadable? {
          return GiveUp(ModeUnknown), run;
        }
        return Retry(Locked), run;
      }
      mount := dev;
      return Picked(dev), run;
    }

    /** The selection loop of WriteToDisk. */
    method SelectDisk() returns (result: Attempt, ghost run: seq<Event>)
      modifies this`mounts, this`mount, computer
      ensures computer.history == old(computer.history) + run
      ensures Selection(run, Disk, result) && TouchesNothing(run)
      ensures mount == if result.Picked? then result.disk else old(mount)
    {
      result, run := Retry(NoDisk), [];
      ghost var tries := [];
      for i := 0 to DISK_SELECTION_TRIES
        invariant computer.history == old(computer.history) + run
        invariant InVainSoFar(run, tries, Disk, result) && |tries| == i && mount == old(mount)
      {
        ghost var asked, more, before := [], [], result;
        if i > 0 {
          var again := computer.YesNoDialog();
          asked := [Asked(again)];
          if !again {
            LastAttempt(run, tries, Disk, result);
            return result, run + asked;
          }
        }
        result, more := TryDisk();
        Regroup(old(computer.history), run, asked, more);
        NextAttempt(run, tries, Disk, before, asked, more, result);
        tries, run := tries + [more], run + asked + more;
        if !result.Retry? {
          return;
        }
      }
      LastAttempt(run, tries, Disk, result);
    }

    /** The background job of WriteToDisk, for which the caller waits: at most three runs of dd, the later
        ones on request. */
    method WriteJob() returns (jobFailed: bool, ghost run: seq<Event>)
      modifies computer
      ensures computer.history == old(computer.history) + run
      ensures DdRuns(run, mount.diskName, !jobFailed)
    {
      jobFailed, run := false, [];
      ghost var tries := [];
      for attempt := 0 to WRITE_ATTEMPTS
        invariant computer.history == old(computer.history) + run
        invariant DdFailedSoFar(run, tries, mount.diskName) && |tries| == attempt && (attempt > 0 ==> jobFailed)
      {
        ghost var asked := [];
        if attempt > 0 {
          var again := computer.YesNoDialog();
          asked := [Asked(again)];
          if !again {
            LastDd(run, tries, mount.diskName);
            return jobFailed, run + asked;
          }
        }
        var ok := computer.RunDd(mount.diskName);
        Regroup(old(computer.history), run, asked, [Dd(mount.diskName, ok)]);
        NextDd(run, tries, mount.diskName, asked, ok);
        tries, run := tries + [[Dd(mount.diskName, ok)]], run + asked + [Dd(mount.diskName, ok)];
        jobFailed := !ok;
        if ok {
          return;
        }
      }
      LastDd(run, tries, mount.diskName);
    }

    /** WriteToDisk. `choice` is the run of the selection, `sure` the confirmation that a choice by menu needs,
        `writes` the runs of dd. */
    method WriteToDisk()
      returns (outcome: Outcome, ghost choice: seq<Event>, ghost sure: seq<Event>, ghost writes: seq<Event>)
      modifies this, computer
      ensures computer.history == old(computer.history) + (choice + sure + writes) && TouchesNothing(choice)
      ensures match outcome
              case Refused(error) =>
                && (Selection(choice, Disk, Retry(error)) || Selection(choice, Disk, GiveUp(error)))
                && sure == writes == [] && writable == old(writable) && mount == old(mount)
              case Declined =>
                && Selection(choice, Disk, Picked(mount)) && Disk == "" && sure == [Asked(false)]
                && writes == [] && !writable
              case Started(jobFailed) =>
                && Selection(choice, Disk, Picked(mount)) && sure == (if Disk == "" then [Asked(true)] else [])
                && DdRuns(writes, mount.diskName, !jobFailed) && writable
    {
      sure, writes := [], [];
      var result;
      result, choice := SelectDisk();
      if !result.Picked? {
        return Refused(result.error), choice, sure, writes;
      }
      if |Disk| == 0 {
        var yes := computer.YesNoDialog();
        sure := [Asked(yes)];
        if !yes {
          writable := false;
          return Declined, choice, sure, writes;
        }
      }
      var jobFailed;
      jobFailed, writes := WriteJob();
      writable := true;
      outcome := Started(jobFailed);
    }

    /** Unmount and Eject do nothing after a declined confirmation. */
    method UnmountDisk() returns (err: bool)
      modifies computer
      ensures computer.history == old(computer.history) + if writable then [Umount(mount.diskName)] else []
      ensures !writable ==> !err
    {
      if writable {
        var ok := computer.RunUmount(mount.diskName);
        return !ok;
      }
      return false;
    }

    method EjectDisk() returns (err: bool)
      modifies computer
      ensures computer.history == old(computer.history) + if writable then [Eject(mount.diskName)] else []
      ensures !writable ==> !err
    {
      if writable {
        var ok := computer.RunEject(mount.diskName);
        return !ok;
      }
      return false;
    }
  }

  // ----- Write -----

  /** Every command that touches a disk goes to one that was chosen before: listed, permitted, the first of
      the given name or else confirmed. */
  ghost predicate Safe(run: seq<Event>, wanted: string) {
    TouchesNothing(run) || exists choice, commands, disk :: SafeOn(run, choice, commands, wanted, disk)
  }

  ghost predicate SafeOn(run: seq<Event>, choice: seq<Event>, commands: seq<Event>, wanted: string, disk: MountInfo) {
    && run == choice + (if wanted == "" then [Asked(true)] else []) + commands
    && TouchesNothing(choice) && Chosen(choice, wanted, disk) && DiskCommands(commands, disk.diskName)
  }

  /** Runs of dd on one disk, which is unmounted and ejected if and only if the last one succeeds. */
  ghost predicate DiskCommands(run: seq<Event>, target: string) {
    || DdRuns(run, target, false)
    || exists writes :: DdRuns(writes, target, true) && run == writes + [Umount(target), Eject(target)]
  }

  /** What is left of Write after the download: without a disk it ends with an error; after a declined
      confirmation it ends without; otherwise the runs of dd decide, and a successful one is followed by unmounting
      and ejecting. */
  ghost predicate FlashBy(run: seq<Event>, choice: seq<Event>, commands: seq<Event>, wanted: string, result: Attempt,
                          err: bool) {
    && run == choice + commands && TouchesNothing(choice) && Selection(choice, wanted, result)
    && if !result.Picked? then commands == [] && err
       else if wanted == "" && commands == [Asked(false)] then !err
       else exists writes :: WritesBy(commands, writes, wanted, result.disk.diskName, err)
  }

  ghost predicate WritesBy(commands: seq<Event>, writes: seq<Event>, wanted: string, target: string, err: bool) {
    && DdRuns(writes, target, !err)
    && commands == (if wanted == "" then [Asked(true)] else []) + writes +
                   (if err then [] else [Umount(target), Eject(target)])
  }

  ghost predicate Flashes(run: seq<Event>, wanted: string, err: bool) {
    exists choice, commands, result :: FlashBy(run, choice, commands, wanted, result, err)
  }

  /** The whole run of Write: a declined question ends it without an error, a failed download with one. */
  ghost predicate WriteRun(run: seq<Event>, wanted: string, quiet: bool, err: bool) {
    if !quiet && run == [Asked(false)] then !err
    else exists ok, rest :: WriteBy(run, ok, rest, wanted, quiet, err)
  }

  ghost predicate WriteBy(run: seq<Event>, ok: bool, rest: seq<Event>, wanted: string, quiet: bool, err: bool) {
    && run == (if quiet then [] else [Asked(true)]) + [Downloaded(ok)] + rest
    && if ok then Flashes(rest, wanted, err) else rest == [] && err
  }

  /** How a successful run ends: with the first question declined, with the confirmation of a permitted disk
      declined, or with a dd that succeeded and the unmounting and ejecting of its disk. */
  predicate Succeeded(run: seq<Event>, wanted: string, quiet: bool) {
    var n := |run|;
    || (!quiet && run == [Asked(false)])
    || (wanted == "" && n >= 2 && run[n - 1] == Asked(false) && run[n - 2].Checked? && run[n - 2].mode.Permitted?)
    || (n >= 3 && run[n - 3].Dd? && run[n - 3].succeeded &&
        run[n - 2] == Umount(run[n - 3].target) && run[n - 1] == Eject(run[n - 3].target))
  }

  /** Write of the SD flasher: download the image, write it, unmount and eject. */
  method Write(computer: Computer, disk: string, quiet: bool) returns (err: bool, ghost run: seq<Event>)
    modifies computer
    ensures computer.history == old(computer.history) + run
    ensures WriteRun(run, disk, quiet, err) && (err <==> !Succeeded(run, disk, quiet))
    ensures Safe(run, disk)
  {
    ghost var head := [];
    if !quiet {
      var proceed := computer.YesNoDialog();
      head := [Asked(proceed)];
      if !proceed {
        return false, head;
      }
    }
    var downloaded := computer.Download();
    Regroup(old(computer.history), head, [Downloaded(downloaded)], []);
    head := head + [Downloaded(downloaded)];
    run := head;
    assert computer.history == old(computer.history) + head;
    if !downloaded {
      assert run == head + [];
      assert WriteBy(run, false, [], disk, quiet, true);
      return true, run;
    }
    var w := new Linux(disk, computer);
    ghost var rest;
    err, rest := WriteAndEject(w);
    run := head + rest;
    Regroup(old(computer.history), head, rest, []);
    assert old(computer.history) + head + rest == old(computer.history) + run;
    SafeLater(head, rest, disk);
    assert WriteBy(run, true, rest, disk, quiet, err);
    VerdictOfRun(run, disk, quiet, err);
  }

  lemma {:induction false} VerdictOfRun(run: seq<Event>, wanted: string, quiet: bool, err: bool)
    requires WriteRun(run, wanted, quiet, err)
    ensures err <==> !Succeeded(run, wanted, quiet)
  {
    if !(!quiet && run == [Asked(false)]) {
      var ok, rest :| WriteBy(run, ok, rest, wanted, quiet, err);
      if ok {
        var choice, commands, result :| FlashBy(rest, choice, commands, wanted, result, err);
        FlashEnds(rest, choice, commands, wanted, result, err);
        SucceededLater((if quiet then [] else [Asked(true)]) + [Downloaded(ok)], rest, wanted, quiet);
      }
    }
  }

  lemma {:induction false} SucceededLater(head: seq<Event>, rest: seq<Event>, wanted: string, quiet: bool)
    requires head != [] && head[|head| - 1].Downloaded? && |rest| > 0
    ensures Succeeded(head + rest, wanted, quiet) <==> Succeeded(rest, wanted, true)
  {
  }

  lemma {:induction false} FlashEnds(run: seq<Event>, choice: seq<Event>, commands: seq<Event>, wanted: string,
                                     result: Attempt, err: bool)
    requires FlashBy(run, choice, commands, wanted, result, err)
    ensures run != [] && (err <==> !Succeeded(run, wanted, true))
  {
    if !result.Picked? {
      assert run == choice;
      RefusalEnds(choice, wanted, result);
    } else if wanted == "" && commands == [Asked(false)] {
      SelectionIsChosen(choice, wanted, result.disk);
    } else {
      var writes :| WritesBy(commands, writes, wanted, result.disk.diskName, err);
      CommandsEnd(choice, commands, writes, wanted, result.disk.diskName, err);
    }
  }

  lemma {:induction false} CommandsEnd(choice: seq<Event>, commands: seq<Event>, writes: seq<Event>, wanted: string,
                                       target: string, err: bool)
    requires WritesBy(commands, writes, wanted, target, err)
    ensures choice + commands != [] && (err <==> !Succeeded(choice + commands, wanted, true))
  {
    var sure := if wanted == "" then [Asked(true)] else [];
    WritesEnd(choice + sure, writes, wanted, target, !err);
    Regroup(choice, sure, writes, if err then [] else [Umount(target), Eject(target)]);
    assert err ==> writes + [] == writes;
  }

  lemma {:induction false} WritesEnd(before: seq<Event>, writes: seq<Event>, wanted: string, target: string, ok: bool)
    requires DdRuns(writes, target, ok)
    ensures !ok ==> before + writes != [] && !Succeeded(before + writes, wanted, true)
    ensures ok ==> Succeeded(before + (writes + [Umount(target), Eject(target)]), wanted, true)
  {
    DdEnds(writes, target, ok);
  }

  lemma {:induction false} RetriedEnds(tries: seq<seq<Event>>)
    requires tries != [] && tries[|tries| - 1] != []
    ensures var run, last := Retried(tries), tries[|tries| - 1];
            && |run| >= |last| && run[|run| - |last|..] == last && run[|run| - 1] == last[|last| - 1]
  {
  }

  lemma {:induction false} RefusalEnds(run: seq<Event>, wanted: string, result: Attempt)
    requires Selection(run, wanted, result) && !result.Picked?
    ensures run != [] && !Succeeded(run, wanted, true)
  {
    var tries, stopped :| SelectionOf(run, tries, stopped, wanted, result);
    RetriedEnds(tries);
  }

  lemma {:induction false} DdEnds(run: seq<Event>, target: string, ok: bool)
    requires DdRuns(run, target, ok)
    ensures run != [] && (ok ==> run[|run| - 1] == Dd(target, true))
    ensures !ok ==> run[|run| - 1] == Dd(target, false) ||
                    (|run| > 1 && run[|run| - 1] == Asked(false) && run[|run| - 2] == Dd(target, false))
  {
    var tries, stopped :| DdRunsOf(run, tries, stopped, target, ok);
    RetriedEnds(tries);
  }

  lemma {:induction false} SafeLater(before: seq<Event>, run: seq<Event>, wanted: string)
    requires TouchesNothing(before) && Safe(run, wanted)
    ensures Safe(before + run, wanted)
    ensures TouchesNothing(run) ==> TouchesNothing(before + run)
  {
    if !TouchesNothing(run) {
      var choice, commands, disk :| SafeOn(run, choice, commands, wanted, disk);
      var sure := if wanted == "" then [Asked(true)] else [];
      ChosenLater(before, choice, wanted, disk);
      Regroup(before, choice, sure, commands);
      assert SafeOn(before + run, before + choice, commands, wanted, disk);
    }
  }

  lemma {:induction false} ChosenLater(before: seq<Event>, run: seq<Event>, wanted: string, disk: MountInfo)
    requires Chosen(run, wanted, disk)
    ensures Chosen(before + run, wanted, disk)
  {
    assert (before + run)[|before + run| - 2..] == run[|run| - 2..];
  }

  lemma {:induction false} Regroup(a: seq<Event>, b: seq<Event>, c: seq<Event>, d: seq<Event>)
    ensures a + (b + c + d) == a + b + c + d
    ensures a + b + c + d == a + b + (c + d)
  {
  }

  lemma {:induction false} SafeAfterChoice(choice: seq<Event>, commands: seq<Event>, wanted: string, disk: MountInfo)
    requires TouchesNothing(choice) && Selection(choice, wanted, Picked(disk))
    requires DiskCommands(commands, disk.diskName)
    ensures Safe(choice + (if wanted == "" then [Asked(true)] else []) + commands, wanted)
  {
    SelectionIsChosen(choice, wanted, disk);
    var run := choice + (if wanted == "" then [Asked(true)] else []) + commands;
    assert SafeOn(run, choice, commands, wanted, disk);
  }

  /** The part of Write that uses the workstation. */
  method WriteAndEject(w: Linux) returns (err: bool, ghost run: seq<Event>)
    modifies w, w.computer
    ensures w.computer.history == old(w.computer.history) + run
    ensures Safe(run, w.Disk) && Flashes(run, w.Disk, err)
  {
    var outcome;
    ghost var choice, sure, writes;
    outcome, choice, sure, writes := w.WriteToDisk();
    run := choice + sure + writes;
    ghost var result := Picked(w.mount);
    if outcome.Refused? {
      result := if Selection(choice, w.Disk, Retry(outcome.error)) then Retry(outcome.error) else GiveUp(outcome.error);
      assert run == choice + [];
      assert FlashBy(run, choice, [], w.Disk, result, true);
      return true, run;
    }
    if outcome.Started? && outcome.jobFailed {
      SafeAfterChoice(choice, writes, w.Disk, w.mount);
      assert sure + writes + [] == sure + writes;
      assert WritesBy(sure + writes, writes, w.Disk, w.mount.diskName, true);
      assert FlashBy(run, choice, sure + writes, w.Disk, result, true);
      return true, run;
    }
    ghost var ends := Release(w);
    Regroup(choice, sure, writes, ends);
    run := run + ends;
    if outcome.Started? {
      Released(writes, w.mount.diskName);
      SafeAfterChoice(choice, writes + ends, w.Disk, w.mount);
      assert WritesBy(sure + writes + ends, writes, w.Disk, w.mount.diskName, false);
      assert FlashBy(run, choice, sure + writes + ends, w.Disk, result, false);
    } else {
      assert FlashBy(run, choice, [Asked(false)], w.Disk, result, false);
    }
    err := false;
  }

  lemma {:induction false} Released(writes: seq<Event>, target: string)
    requires DdRuns(writes, target, true)
    ensures DiskCommands(writes + [Umount(target), Eject(target)], target)
  {
  }

  /** Unmount and eject; errors are only logged. */
  method Release(w: Linux) returns (ghost run: seq<Event>)
    modifies w.computer
    ensures w.computer.history == old(w.computer.history) + run
    ensures run == if w.writable then [Umount(w.mount.diskName), Eject(w.mount.diskName)] else []
  {
    var _ := w.UnmountDisk();
    var _ := w.EjectDisk();
    run := if w.writable then [Umount(w.mount.diskName), Eject(w.mount.diskName)] else [];
  }
}
