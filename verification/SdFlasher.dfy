/** Partition detection and configuration of SD card images: `device/sd_flasher.go` and the part of
    `device/rasppi.go` that it re-enters. */
module SdFlasher {
  import opened Text
  import opened MountRuns

  class SdFlasher {
    const vm: Vm
    const img: string
    const quiet: bool
    var mounted: bool
    var configured: bool
    /** The configurators that were run on the image. */
    ghost var runs: seq<Flow>

    constructor (vm: Vm, img: string, quiet: bool)
      ensures this.vm == vm && this.img == img && this.quiet == quiet
      ensures !mounted && !configured && runs == []
    {
      this.vm, this.img, this.quiet := vm, img, quiet;
      mounted, configured, runs := false, false, [];
    }

    /** mount, with a second attempt after repairing a file system that is larger than its partition. */
    method Mount(loop: string) returns (ok: bool, ghost run: seq<Event>)
      modifies vm
      ensures vm.history == old(vm.history) + run
      ensures Mounting(run, loop) && ok == MountDone(run) && GivenUp(run[1..], vm.blockCount)
      ensures Reported(run[|run| - 1].raw).Ok? && ok ==> OnTop(vm.root, loop)
      ensures Tame(run) ==> vm.root == old(vm.root) + if ok then [loop] else []
    {
      var r;
      ghost var e;
      r, e := vm.ExecOverSSH(MountRoot(loop));
      run := [e];
      assert e in run;
      if r.Err? && Contains(r.offender, WRONG_FS) {
        ghost var repair;
        ok, repair := Remount(loop);
        run := [e] + repair;
        assert run[1..] == repair;
        RunsJoin([e], repair);
        return;
      }
      ok := r.Ok? || Contains(r.offender, ALREADY);
    }

    /** The repair and the second attempt. */
    method Remount(loop: string) returns (ok: bool, ghost run: seq<Event>)
      modifies vm
      ensures vm.history == old(vm.history) + run
      ensures Repairing(run, loop) && ok == (|run| == 4 && Reported(run[3].raw).Ok?) && GivenUp(run, vm.blockCount)
      ensures ok ==> OnTop(vm.root, loop)
      ensures Tame(run) ==> vm.root == old(vm.root) + if ok then [loop] else []
    {
      var r;
      ghost var e;
      r, e := vm.ExecOverSSH(KernelLog);
      run := [e];
      if r.Err? {
        return false, run;
      }
      var blocks := vm.blockCount(r.value);
      if blocks.Err? {
        return false, run;
      }
      ghost var more;
      ok, more := InstallAndMount(loop, blocks.value);
      Assoc(old(vm.history), run, more);
      RunsJoin(run, more);
      RepairFollows(e, more, loop);
      run := run + more;
    }

    /** What follows once the number of blocks is known. */
    method InstallAndMount(loop: string, blocks: string) returns (ok: bool, ghost run: seq<Event>)
      modifies vm
      ensures vm.history == old(vm.history) + run && |run| in {1, 3} && run[0].cmd.InstallTools?
      ensures |run| == 1 <==> Reported(run[0].raw).Err?
      ensures |run| == 3 ==> run[1].cmd == Resize(loop, blocks) && run[2].cmd == MountRoot(loop)
      ensures ok == (|run| == 3 && Reported(run[2].raw).Ok?)
      ensures ok ==> OnTop(vm.root, loop)
      ensures Tame(run) ==> vm.root == old(vm.root) + if ok then [loop] else []
    {
      var r;
      ghost var e, more;
      r, e := vm.ExecOverSSH(InstallTools);
      run := [e];
      if r.Err? {
        return false, run;
      }
      ok, more := MountResized(loop, blocks);
      RunsJoin(run, more);
      run := run + more;
    }

    method MountResized(loop: string, blocks: string) returns (ok: bool, ghost run: seq<Event>)
      modifies vm
      ensures vm.history == old(vm.history) + run && |run| == 2
      ensures run[0].cmd == Resize(loop, blocks) && run[1].cmd == MountRoot(loop) && ok == Reported(run[1].raw).Ok?
      ensures ok ==> OnTop(vm.root, loop)
      ensures Tame(run) ==> vm.root == old(vm.root) + if ok then [loop] else []
    {
      var r;
      ghost var first, second;
      r, first := vm.ExecOverSSH(Resize(loop, blocks));
      r, second := vm.ExecOverSSH(MountRoot(loop));
      run := [first, second];
      assert second in run;
      ok := r.Ok?;
    }

    /** The first commands of MountImg: attach the image to a loop device. */
    method AttachImage() returns (err: bool, ghost run: seq<Event>)
      modifies vm
      ensures vm.history == old(vm.history) + run && vm.root == old(vm.root) && Quiet(run)
      ensures Follows(run, AttachScript(img), err)
    {
      var r;
      ghost var first, second, third;
      r, first := vm.ExecOverSSH(DetachLoops);
      OneStep(first, Nothing);
      r, second := vm.ExecOverSSH(AttachLoop(img));
      NextStep([first], [Step(DetachLoops, Nothing)], second, AnyError);
      run := [first, second];
      if r.Err? {
        FollowsNoFurther(run, [Step(DetachLoops, Nothing), Step(AttachLoop(img), AnyError)],
                         [Step(MakeMountDir, AnyError)]);
        return true, run;
      }
      r, third := vm.ExecOverSSH(MakeMountDir);
      NextStep(run, [Step(DetachLoops, Nothing), Step(AttachLoop(img), AnyError)], third, AnyError);
      run := run + [third];
      return r.Err?, run;
    }

    /** List the mounted partition, and unmount it unless it is the root. */
    method ListPartition() returns (probe: Probe, ghost run: seq<Event>)
      modifies vm
      ensures vm.history == old(vm.history) + run && Probed(run, probe)
      ensures Listing(run) && run[0].root == old(vm.root)
      ensures Tame(run) && old(vm.root) != [] ==>
                vm.root == if probe.RootFound? then old(vm.root) else old(vm.root)[..|old(vm.root)| - 1]
    {
      var r;
      ghost var e;
      r, e := vm.ExecOverSSH(ListRoot);
      SingleRun(e);
      run := [e];
      if r.Err? {
        return Rejected, run;
      }
      if PiListing(r.value) {
        assert e in run && PiFound(e);
        probe := PiImage;
      } else if !RootListing(r.value) {
        probe := Rejected;
      } else {
        return RootFound, run;
      }
      ghost var listed := run;
      r, e := vm.ExecOverSSH(UnmountRoot);
      RunsJoin(listed, [e]);
      SingleRun(e);
      run := listed + [e];
    }

    /** One round of the detection loop. */
    method ProbePartition(part: string) returns (probe: Probe, ghost run: seq<Event>)
      modifies vm
      ensures vm.history == old(vm.history) + run && Round(run, part) && Probed(run, probe)
      ensures Tame(run) ==> vm.root == old(vm.root) + if probe.RootFound? then [part] else []
    {
      var ok;
      ok, run := Mount(part);
      MountsOne(run, part);
      ghost var mount, more := run, [];
      if !ok {
        RoundJoins(mount, more, part);
        assert mount + more == run;
        return Rejected, run;
      }
      probe, more := ListPartition();
      run := mount + more;
      Assoc(old(vm.history), mount, more);
      ProbedAfter(mount, more, probe);
      RunsJoin(mount, more);
      RoundJoins(mount, more, part);
    }

    /** The round for the next partition of a search. */
    method ProbeNext(opts: seq<string>, i: nat, ghost s: Search)
      returns (probe: Probe, ghost run: seq<Event>, ghost s': Search)
      requires i == |s.rounds| < |opts| && InVain(s.before, s.rounds, opts)
      modifies vm
      ensures vm.history == old(vm.history) + run && RunOf(s') == RunOf(s) + run && s'.before == s.before
      ensures match probe
              case Rejected => |s'.rounds| == i + 1 && InVain(s'.before, s'.rounds, opts)
              case RootFound => FoundAt(s', opts, i)
              case PiImage => PiAt(s', opts, i) && PiSeen(run)
      ensures Tame(run) ==> vm.root == old(vm.root) + if probe.RootFound? then [opts[i]] else []
    {
      probe, run := ProbePartition(opts[i]);
      s' := SearchGoesOn(s, run, opts);
    }

    /** The configuration that overrides the one of the SD flasher. */
    method ConfigurePi() returns (err: bool, ghost run: seq<Event>)
      modifies this`mounted, this`configured, this`runs, vm
      ensures vm.history == old(vm.history) + run && PiRun(run, img, quiet, err)
      ensures configured && runs == old(runs) + [PiFlow]
      ensures !err ==> mounted && (Tame(run) ==> vm.root == old(vm.root) + ["loop0p2"])
      decreases 1, 1
    {
      configured := true;
      err, run := RaspberryConfigure();
    }

    /** The detection loop of MountImg over the partitions of the loop device, up to partition `k` that shows
        something, or past all of them. On a tame machine only a root partition stays mounted. */
    method FindPartition(opts: seq<string>)
      returns (probe: Probe, ghost k: nat, ghost run: seq<Event>, ghost search: Search)
      modifies vm
      ensures vm.history == old(vm.history) + run && run == RunOf(search) && search.before == []
      ensures match probe
              case Rejected => NoneFound(search, opts)
              case RootFound => FoundAt(search, opts, k)
              case PiImage => PiAt(search, opts, k) && PiSeen(run)
      ensures Tame(run) ==> vm.root == old(vm.root) + if probe.RootFound? then [opts[k]] else []
    {
      probe, k, run, search := Rejected, 0, [], Search([], []);
      for i := 0 to |opts|
        invariant vm.history == old(vm.history) + run && run == RunOf(search) && search.before == []
        invariant |search.rounds| == i && InVain(search.before, search.rounds, opts) && probe.Rejected?
        invariant Tame(run) ==> vm.root == old(vm.root)
      {
        ghost var more, before := [], run;
        probe, more, search := ProbeNext(opts, i, search);
        run := before + more;
        Assoc(old(vm.history), before, more);
        RunsJoin(before, more);
        if !probe.Rejected? {
          k := i;
          return;
        }
      }
    }

    /** The detection, and the configuration of a Raspberry Pi if it finds one. */
    method Detect(opts: seq<string>) returns (err: bool, ghost pi: bool, ghost k: nat, ghost run: seq<Event>,
                                              ghost search: Search, ghost config: seq<Event>)
      requires !mounted
      modifies this`mounted, this`configured, this`runs, vm
      ensures vm.history == old(vm.history) + run && run == RunOf(search) + config && search.before == []
      ensures pi ==> configured && runs == old(runs) + [PiFlow] && PiSeen(run)
      ensures pi ==> PiAt(search, opts, k) && PiRun(config, img, quiet, err)
      ensures !pi ==> !err && configured == old(configured) && runs == old(runs) && config == []
      ensures !pi ==> if mounted then FoundAt(search, opts, k) else NoneFound(search, opts)
      ensures !pi && Tame(run) ==> vm.root == old(vm.root) + if mounted then [opts[k]] else []
      ensures pi && !err ==> mounted && (Tame(run) ==> vm.root == old(vm.root) + ["loop0p2"])
      decreases 2, 0
    {
      var probe;
      probe, k, run, search := FindPartition(opts);
      err, pi, config := false, probe.PiImage?, [];
      if probe.PiImage? {
        ghost var found := run;
        err, config := ConfigurePi();
        run := found + config;
        Assoc(old(vm.history), found, config);
        RunsJoin(found, config);
        return;
      }
      mounted := probe.RootFound?;
      assert run + [] == run;
    }

    /** Unmount the folder once, then detect: with at most one mount before, nothing else is left. */
    method ClearAndDetect(opts: seq<string>)
      returns (err: bool, ghost pi: bool, ghost k: nat, ghost run: seq<Event>, ghost search: Search,
               ghost config: seq<Event>, ghost clear: Event)
      requires !mounted
      modifies this`mounted, this`configured, this`runs, vm
      ensures vm.history == old(vm.history) + run && run == RunOf(search) + config
      ensures clear.cmd.UnmountRoot? && search.before == [clear]
      ensures pi ==> configured && runs == old(runs) + [PiFlow] && PiSeen(run)
      ensures pi ==> PiAt(search, opts, k) && PiRun(config, img, quiet, err)
      ensures !pi ==> !err && configured == old(configured) && runs == old(runs) && config == []
      ensures !pi ==> if mounted then FoundAt(search, opts, k) else NoneFound(search, opts)
      ensures !pi && Tame(run) && |old(vm.root)| <= 1 ==> vm.root == if mounted then [opts[k]] else []
      ensures pi && !err ==> mounted && (Tame(run) && |old(vm.root)| <= 1 ==> vm.root == ["loop0p2"])
      decreases 2, 1
    {
      var r;
      ghost var more;
      r, clear := vm.ExecOverSSH(UnmountRoot);
      SingleRun(clear);
      assert Tame([clear]) && |old(vm.root)| <= 1 ==> vm.root == [];
      err, pi, k, more, search, config := Detect(opts);
      run := [clear] + more;
      Assoc(old(vm.history), [clear], more);
      Assoc([clear], RunOf(search), config);
      RunsJoin([clear], more);
      search := SearchLater([clear], search, opts, k);
    }

    /** MountImg on a given partition. */
    method MountGiven(loopMount: string) returns (err: bool, ghost run: seq<Event>)
      modifies this`mounted, vm
      ensures vm.history == old(vm.history) + run && GivenRun(run, img, "loop0" + loopMount, err)
      ensures !err ==> mounted && (Tame(run) ==> vm.root == old(vm.root) + ["loop0" + loopMount])
    {
      if img == "" {
        return true, [];
      }
      ghost var attach, mount;
      err, attach := AttachImage();
      run := attach;
      if err {
        return;
      }
      mounted := false;
      var ok;
      ok, mount := Mount("loop0" + loopMount);
      run := attach + mount;
      Assoc(old(vm.history), attach, mount);
      RunsJoin(attach, mount);
      mounted, err := ok, !ok;
      assert GivenBy(run, attach, mount, img, "loop0" + loopMount, err);
    }

    /** MountImg on no given partition: detect one. */
    method MountDetected() returns (err: bool, ghost pi: bool, ghost run: seq<Event>, ghost d: Detection)
      modifies this`mounted, this`configured, this`runs, vm
      ensures vm.history == old(vm.history) + run
      ensures Detected(run, d, img, quiet, vm.partitions, err, pi, mounted)
      ensures if pi then configured && runs == old(runs) + [PiFlow] && PiSeen(run)
              else configured == old(configured) && runs == old(runs)
      ensures !err && !pi ==> MountedIsListed(run) && if mounted then EndsAt(run, d.opts[d.k]) else NothingFound(run)
      ensures MountsLeft(old(vm.root), vm.root, Tame(run), d, err, pi, mounted)
      ensures pi && !err ==> mounted
      decreases 2, 3
    {
      err, pi, run, d := AttachAndDetect();
      if !err && !pi {
        DetectionMeans(run, d, img, quiet, vm.partitions, mounted);
      }
    }

    method AttachAndDetect() returns (err: bool, ghost pi: bool, ghost run: seq<Event>, ghost d: Detection)
      modifies this`mounted, this`configured, this`runs, vm
      ensures vm.history == old(vm.history) + run
      ensures Detected(run, d, img, quiet, vm.partitions, err, pi, mounted)
      ensures if pi then configured && runs == old(runs) + [PiFlow] && PiSeen(run)
              else configured == old(configured) && runs == old(runs)
      ensures MountsLeft(old(vm.root), vm.root, Tame(run), d, err, pi, mounted)
      ensures pi && !err ==> mounted
      decreases 2, 2
    {
      pi, run, d := false, [], NO_DETECTION;
      if img == "" {
        err := true;
        return;
      }
      var found;
      err, found, run := AttachAndList();
      if err {
        return;
      }
      mounted, d := false, d.(head := run, opts := found);
      if |found| == 0 {
        return;
      }
      ghost var head, more := run, [];
      ghost var k, search, config, clear;
      err, pi, k, more, search, config, clear := ClearAndDetect(found);
      run := head + more;
      Assoc(old(vm.history), head, more);
      Assoc(head, RunOf(search), config);
      RunsJoin(head, more);
      search := SearchLater(head, search, found, k);
      d := Detection(head, clear, found, k, search, config);
    }

    /** The commands before the detection. */
    method AttachAndList() returns (err: bool, found: seq<string>, ghost run: seq<Event>)
      modifies vm
      ensures vm.history == old(vm.history) + run && vm.root == old(vm.root) && Quiet(run)
      ensures Follows(run, ListScript(img), err)
      ensures !err ==> |run| == 4 && found == vm.partitions(run[3].raw.out)
    {
      err, run := AttachImage();
      found := [];
      if err {
        FollowsNoFurther(run, AttachScript(img), [Step(ListPartitions, AnyError)]);
        return;
      }
      var r;
      ghost var e;
      r, e := vm.ExecOverSSH(ListPartitions);
      NextStep(run, AttachScript(img), e, AnyError);
      run := run + [e];
      FollowsAll(run, ListScript(img), r.Err?);
      if r.Err? {
        err := true;
        return;
      }
      found := vm.partitions(r.value);
    }

    /** MountImg: on a given partition, or on the one it detects. */
    method MountImg(loopMount: string) returns (err: bool, ghost pi: bool, ghost run: seq<Event>, ghost d: Detection)
      modifies this`mounted, this`configured, this`runs, vm
      ensures vm.history == old(vm.history) + run
      ensures if pi then loopMount == "" && configured && runs == old(runs) + [PiFlow]
              else configured == old(configured) && runs == old(runs)
      ensures if loopMount != "" then GivenRun(run, img, "loop0" + loopMount, err)
              else Detected(run, d, img, quiet, vm.partitions, err, pi, mounted)
      ensures loopMount != "" && !err ==> mounted && (Tame(run) ==> vm.root == old(vm.root) + ["loop0" + loopMount])
      ensures loopMount == "" && !err ==> (mounted <==> !NothingFound(run)) && (pi ==> PiSeen(run))
      ensures loopMount == "" && !err && !pi ==>
                MountedIsListed(run) && (mounted ==> run != [] && Accepted(run[|run| - 1]))
      ensures loopMount == "" && !err && Tame(run) && old(vm.root) == [] ==>
                (vm.root != [] <==> !NothingFound(run)) && |vm.root| <= 1
      decreases if loopMount == "" then 2 else 0, 4
    {
      pi, d := false, NO_DETECTION;
      if loopMount != "" {
        err, run := MountGiven(loopMount);
      } else {
        err, pi, run, d := MountDetected();
      }
    }

    /** UnmountImg: does nothing exactly when something was mounted. */
    method UnmountImg() returns (err: bool, ghost run: seq<Event>)
      modifies vm
      ensures vm.history == old(vm.history) + run
      ensures mounted ==> run == [] && !err && vm.root == old(vm.root)
      ensures !mounted ==> run != [] && run[0].cmd == UnmountRoot && (Reported(run[0].raw).Err? ==> err && |run| == 1)
      ensures !mounted && Reported(run[0].raw).Ok? ==>
                |run| == 2 && run[1].cmd == DetachLoops && err == Reported(run[1].raw).Err?
    {
      run := [];
      if mounted {
        return false, run;
      }
      var r;
      ghost var e;
      r, e := vm.ExecOverSSH(UnmountRoot);
      run := [e];
      if r.Err? {
        return true, run;
      }
      r, e := vm.ExecOverSSH(DetachLoops);
      run := run + [e];
      return r.Err?, run;
    }

    /** Commands of the Raspberry Pi around its boot partition. */
    method BootCommands(first: Command, second: Command) returns (err: bool, ghost run: seq<Event>)
      requires !first.MountRoot? && !first.UnmountRoot? && !second.MountRoot? && !second.UnmountRoot?
      modifies vm
      ensures vm.history == old(vm.history) + run && vm.root == old(vm.root)
      ensures Follows(run, [Step(first, ExitOnly), Step(second, ExitOnly)], err)
    {
      ghost var e, e';
      err, e := vm.Exec(first);
      OneStep(e, ExitOnly);
      run := [e];
      if err {
        FollowsNoFurther(run, [Step(first, ExitOnly)], [Step(second, ExitOnly)]);
        return;
      }
      err, e' := vm.Exec(second);
      NextStep(run, [Step(first, ExitOnly)], e', ExitOnly);
      run := run + [e'];
    }

    method MountBootPartition() returns (err: bool, ghost run: seq<Event>)
      modifies vm
      ensures vm.history == old(vm.history) + run && vm.root == old(vm.root)
      ensures Follows(run, [Step(MakeBootDir, ExitOnly), Step(MountBoot, ExitOnly)], err)
    {
      err, run := BootCommands(MakeBootDir, MountBoot);
    }

    method UnmountBootPartition() returns (err: bool, ghost run: seq<Event>)
      modifies vm
      ensures vm.history == old(vm.history) + run && vm.root == old(vm.root)
      ensures Follows(run, [Step(UnmountBoot, ExitOnly), Step(DetachLoops, ExitOnly)], err)
    {
      err, run := BootCommands(UnmountBoot, DetachLoops);
    }

    /** raspberryPi.Configure. It mounts the main partition through MountImg again, which goes no deeper. */
    method RaspberryConfigure() returns (err: bool, ghost run: seq<Event>)
      modifies this`mounted, this`configured, this`runs, vm
      ensures vm.history == old(vm.history) + run && PiRun(run, img, quiet, err)
      ensures configured == old(configured) && runs == old(runs) + [PiFlow]
      ensures !err ==> mounted && (Tame(run) ==> vm.root == old(vm.root) + ["loop0p2"])
      decreases 1, 0
    {
      runs := runs + [PiFlow];
      ghost var nested, none, mounting, rest;
      err, nested, mounting, none := MountImg("p2");
      assert "loop0" + "p2" == "loop0p2";
      run := mounting;
      if err {
        return;
      }
      err, rest := RaspberryMounted();
      run := mounting + rest;
      Assoc(old(vm.history), mounting, rest);
      RunsJoin(mounting, rest);
      assert PiBy(run, mounting, rest, img, quiet, err);
    }

    /** What follows once the main partition is mounted; it stays mounted. */
    method RaspberryMounted() returns (err: bool, ghost run: seq<Event>)
      requires mounted
      modifies vm
      ensures vm.history == old(vm.history) + run && vm.root == old(vm.root)
      ensures Follows(run, PiScript(quiet, Wanted(run)), err)
    {
      ghost var more, rest;
      err, run := BootAndAnswers();
      if err {
        FollowsNoFurther(run, PiStart(quiet, Wanted(run)), [Step(UnmountBoot, ExitOnly), Step(DetachLoops, ExitOnly)]);
        return;
      }
      err, more := UnmountImg();
      if err {
        return;
      }
      err, rest := UnmountBootPartition();
      PiEnds(run, rest, quiet, err);
      Assoc(old(vm.history), run, rest);
      run := run + rest;
    }

    /** The boot partition is mounted, and the configuration is written. */
    method BootAndAnswers() returns (err: bool, ghost run: seq<Event>)
      modifies vm
      ensures vm.history == old(vm.history) + run && vm.root == old(vm.root)
      ensures Follows(run, PiStart(quiet, Wanted(run)), err)
    {
      ghost var answers;
      err, run := MountBootPartition();
      if err {
        FollowsNoFurther(run, [Step(MakeBootDir, ExitOnly), Step(MountBoot, ExitOnly)], PiAnswers(quiet, Wanted(run)));
        return;
      }
      err, answers := RaspberryAnswers();
      PiStarts(run, answers, quiet, err);
      Assoc(old(vm.history), run, answers);
      run := run + answers;
    }

    /** The dialogs, and the writing of the configuration. */
    method RaspberryAnswers() returns (err: bool, ghost run: seq<Event>)
      modifies vm
      ensures vm.history == old(vm.history) + run && vm.root == old(vm.root)
      ensures Follows(run, PiAnswers(quiet, Wanted(run)), err)
    {
      ghost var write;
      err, run := RaspberryDialogs();
      if err {
        AskedAndSetUp(run[0], run[1], PiFlow);
        ConfiguratorScripts();
        assert run == [run[0], run[1]];
        return;
      }
      err, write := vm.Exec(WriteFiles(PiFlow));
      PiWrites(run, write, quiet);
      Assoc(old(vm.history), run, [write]);
      run := run + [write];
    }

    /** With dialogs, the question and the Setup if the user wants it; without, only the SSH server is enabled. */
    method RaspberryDialogs() returns (err: bool, ghost run: seq<Event>)
      modifies vm
      ensures vm.history == old(vm.history) + run && vm.root == old(vm.root)
      ensures PiDialogs(run, quiet, err)
    {
      ghost var e, setup;
      if quiet {
        err, e := vm.Exec(TouchSsh);
        return false, [e];
      }
      var no;
      no, e := vm.Exec(AskConfigure);
      if no {
        return false, [e];
      }
      err, setup := vm.Exec(SetUp(PiFlow));
      Two(old(vm.history), e, setup);
      run := [e, setup];
    }

    /** The dialog of the SD flasher, and the configurator if the user wants it. */
    method DefaultAnswers() returns (err: bool, ghost run: seq<Event>)
      modifies this`runs, vm
      ensures vm.history == old(vm.history) + run && vm.root == old(vm.root)
      ensures DefaultDialogs(run, quiet, err)
      ensures runs == old(runs) + if |run| > 1 then [DefaultFlow] else []
    {
      if quiet {
        return false, [];
      }
      ghost var e, more;
      var no;
      no, e := vm.Exec(AskConfigure);
      run := [e];
      if no {
        return false, run;
      }
      runs := runs + [DefaultFlow];
      err, more := SetUpAndWrite();
      Assoc(old(vm.history), run, more);
      run := run + more;
    }

    method SetUpAndWrite() returns (err: bool, ghost run: seq<Event>)
      modifies vm
      ensures vm.history == old(vm.history) + run && vm.root == old(vm.root)
      ensures DefaultConfiguration(run, err)
    {
      ghost var setup, write;
      err, setup := vm.Exec(SetUp(DefaultFlow));
      run := [setup];
      if err {
        return;
      }
      err, write := vm.Exec(WriteFiles(DefaultFlow));
      Two(old(vm.history), setup, write);
      run := [setup, write];
    }

    /** What follows a mounting without error, unless a Raspberry Pi was configured. */
    method FollowUp() returns (err: bool, ghost rest: seq<Event>)
      requires !configured
      modifies this`runs, vm
      ensures vm.history == old(vm.history) + rest && vm.root == old(vm.root) && Quiet(rest)
      ensures AfterMounting(rest, quiet, false, false, mounted, err)
      ensures runs == old(runs) + if Wanted(rest) then [DefaultFlow] else []
      ensures Wanted(rest) ==> mounted && !quiet
    {
      if !mounted {
        ghost var e;
        err, e := vm.Exec(AskProceed);
        return err, [e];
      }
      err, rest := DefaultAnswers();
      DefaultFollows(rest, quiet, err);
      if err {
        return;
      }
      ghost var more;
      err, more := UnmountImg();
      assert rest + [] == rest;
    }

    /** sdFlasher.Configure. At most one configurator runs: that of a Raspberry Pi, or the default one, exactly when
        the user wants it on a mounted root partition. On a tame machine something is left mounted on success
        if and only if a listing showed a root or a Raspberry Pi partition. `mounting` is the run of the
        mounting, whose error is `mountErr`, and `rest` what follows. */
    method Configure()
      returns (err: bool, ghost pi: bool, ghost prepare: Event, ghost mounting: seq<Event>, ghost d: Detection,
               ghost mountErr: bool, ghost rest: seq<Event>)
      modifies this`mounted, this`configured, this`runs, vm
      ensures vm.history == old(vm.history) + [prepare] + (mounting + rest) && prepare.cmd.Prepare?
      ensures prepare.raw.failed ==> err && mountErr && mounting == rest == [] && !pi
      ensures !prepare.raw.failed ==> Detected(mounting, d, img, quiet, vm.partitions, mountErr, pi, mounted)
      ensures AfterMounting(rest, quiet, mountErr, configured, mounted, err) && Quiet(rest)
      ensures configured == (old(configured) || pi) && (Wanted(rest) ==> mounted && !configured && !quiet)
      ensures runs == old(runs) + if pi then [PiFlow] else if Wanted(rest) then [DefaultFlow] else []
      ensures !mountErr ==> (mounted <==> !NothingFound(mounting)) && (!pi ==> MountedIsListed(mounting))
      ensures !mountErr && Tame(mounting) && old(vm.root) == [] ==>
                (vm.root != [] <==> !NothingFound(mounting)) && |vm.root| <= 1
      ensures !mountErr && mounted && !pi ==> mounting != [] && Accepted(mounting[|mounting| - 1])
    {
      var failed;
      failed, prepare := PrepareImage();
      if failed {
        err, pi, mounting, d, mountErr, rest := true, false, [], NO_DETECTION, true, [];
        return;
      }
      err, pi, mounting, d, mountErr, rest := MountAndConfigure();
    }

    method PrepareImage() returns (failed: bool, ghost prepare: Event)
      modifies vm
      ensures vm.history == old(vm.history) + [prepare] && prepare.cmd.Prepare? && vm.root == old(vm.root)
      ensures failed == prepare.raw.failed
    {
      failed, prepare := vm.Exec(Prepare);
    }

    /** Configure once the image is prepared. */
    method MountAndConfigure()
      returns (err: bool, ghost pi: bool, ghost mounting: seq<Event>, ghost d: Detection, ghost mountErr: bool,
               ghost rest: seq<Event>)
      modifies this`mounted, this`configured, this`runs, vm
      ensures vm.history == old(vm.history) + (mounting + rest)
      ensures Detected(mounting, d, img, quiet, vm.partitions, mountErr, pi, mounted)
      ensures AfterMounting(rest, quiet, mountErr, configured, mounted, err) && Quiet(rest)
      ensures configured == (old(configured) || pi) && (Wanted(rest) ==> mounted && !configured && !quiet)
      ensures runs == old(runs) + if pi then [PiFlow] else if Wanted(rest) then [DefaultFlow] else []
      ensures !mountErr ==> (mounted <==> !NothingFound(mounting)) && (!pi ==> MountedIsListed(mounting))
      ensures !mountErr && Tame(mounting) && old(vm.root) == [] ==>
                (vm.root != [] <==> !NothingFound(mounting)) && |vm.root| <= 1
      ensures !mountErr && mounted && !pi ==> mounting != [] && Accepted(mounting[|mounting| - 1])
    {
      err, pi, mounting, d := MountImg("");
      mountErr, rest := err, [];
      if err || configured {
        assert mounting + [] == mounting;
        return;
      }
      err, rest := FollowUp();
      Assoc(old(vm.history), mounting, rest);
    }
  }
}
