/** The virtual machine behind `device/sd_flasher.go` and `device/rasppi.go`, and what a run of commands to it
    amounts to. */
module MountRuns {
  import opened Text

  /** The default configurator, or the one of the Raspberry Pi. */
  datatype Flow = DefaultFlow | PiFlow

  /** What is sent to the machine; and, in the same history, the questions to the user and what the flasher and
      the configurator are told to do. */
  datatype Command =
    | DetachLoops | AttachLoop(img: string) | MakeMountDir | ListPartitions
    | MountRoot(part: string) | UnmountRoot | ListRoot
    | KernelLog | InstallTools | Resize(part: string, blocks: string)
    | MakeBootDir | MountBoot | UnmountBoot | TouchSsh
    | Prepare | AskProceed | AskConfigure | SetUp(flow: Flow) | WriteFiles(flow: Flow)

  /** The exit of a command: an error with its message, or output and text on the error channel. A question
      that is answered with no has failed. */
  datatype Raw = Raw(failed: bool, message: string, out: string, eut: string)

  /** A command, the partitions mounted on the image folder when it was sent, and its exit. */
  datatype Event = Event(cmd: Command, root: seq<string>, raw: Raw)

  /** execOverSSH: text on the error channel counts as an error, whatever the command did. */
  function Reported(raw: Raw): Result<string> {
    if raw.failed then Err(raw.message) else if !Blank(raw.eut) then Err(raw.eut) else Ok(raw.out)
  }

  /** Mounts on one folder stack up, and unmounting takes the topmost away. */
  function AfterCommand(root: seq<string>, cmd: Command, raw: Raw): seq<string> {
    if raw.failed then root
    else
      match cmd
      case MountRoot(p) => root + [p]
      case UnmountRoot => if root == [] then [] else root[..|root| - 1]
      case _ => root
  }

  const NOT_MOUNTED := Raw(true, "not mounted", "", "")

  /** The virtual machine and its user. The answers may depend on everything that was sent before. `partitions` and
      `blockCount` are what the two regular expressions find in an output. */
  class Vm {
    const answer: (seq<Event>, Command) -> Raw
    const partitions: string -> seq<string>
    const blockCount: string -> Result<string>
    var root: seq<string>
    var history: seq<Event>

    constructor (answer: (seq<Event>, Command) -> Raw, partitions: string -> seq<string>,
                 blockCount: string -> Result<string>, root: seq<string>)
      ensures this.answer == answer && this.partitions == partitions && this.blockCount == blockCount
      ensures this.root == root && history == []
    {
      this.answer, this.partitions, this.blockCount := answer, partitions, blockCount;
      this.root, history := root, [];
    }

    method Send(cmd: Command) returns (raw: Raw)
      modifies this
      ensures raw == if cmd.UnmountRoot? && old(root) == [] then NOT_MOUNTED else answer(old(history), cmd)
      ensures history == old(history) + [Event(cmd, old(root), raw)]
      ensures root == AfterCommand(old(root), cmd, raw)
    {
      raw := if cmd.UnmountRoot? && root == [] then NOT_MOUNTED else answer(history, cmd);
      history := history + [Event(cmd, root, raw)];
      root := AfterCommand(root, cmd, raw);
    }

    method ExecOverSSH(cmd: Command) returns (r: Result<string>, ghost e: Event)
      modifies this
      ensures history == old(history) + [e] && e.cmd == cmd && e.root == old(root)
      ensures r == Reported(e.raw) && root == AfterCommand(old(root), cmd, e.raw)
      ensures cmd.UnmountRoot? && old(root) == [] ==> r.Err?
    {
      var raw := Send(cmd);
      e := history[|history| - 1];
      r := Reported(raw);
    }

    /** The plain exec of the Raspberry Pi: only the exit of the command counts. */
    method Exec(cmd: Command) returns (err: bool, ghost e: Event)
      modifies this
      ensures history == old(history) + [e] && e.cmd == cmd && e.root == old(root)
      ensures err == e.raw.failed && root == AfterCommand(old(root), cmd, e.raw)
    {
      var raw := Send(cmd);
      e := history[|history| - 1];
      err := raw.failed;
    }
  }

  const WRONG_FS := "wrong fs type, bad option, bad superblock"
  const ALREADY := "is already mounted"

  /** The listing of a Raspberry Pi boot partition. */
  predicate PiListing(out: string) {
    Contains(out, "config.txt")
  }

  /** The listing of a Linux root partition. */
  predicate RootListing(out: string) {
    !PiListing(out) && (Contains(out, "etc") || Contains(out, "opt"))
  }

  /** In their words: a boot partition shows config.txt; a root partition does not, and shows etc or opt. */
  lemma {:induction false} ListingsInWords(out: string)
    ensures PiListing(out) <==> exists a, b :: Around(out, a, "config.txt", b)
    ensures RootListing(out) <==>
            && !(exists a, b :: Around(out, a, "config.txt", b))
            && ((exists a, b :: Around(out, a, "etc", b)) || exists a, b :: Around(out, a, "opt", b))
  {
    ContainsAround(out, "config.txt");
    ContainsAround(out, "etc");
    ContainsAround(out, "opt");
  }

  /** The two complaints that a mount looks for in the error. */
  lemma {:induction false} ComplaintsInWords(e: Event)
    ensures var error := if e.raw.failed then e.raw.message else e.raw.eut;
            var complains := e.raw.failed || !Blank(e.raw.eut);
            && (Complains(e, WRONG_FS) <==>
                complains && exists a, b :: Around(error, a, "wrong fs type, bad option, bad superblock", b))
            && (Complains(e, ALREADY) <==>
                complains && exists a, b :: Around(error, a, "is already mounted", b))
  {
    var error := if e.raw.failed then e.raw.message else e.raw.eut;
    ContainsAround(error, WRONG_FS);
    ContainsAround(error, ALREADY);
  }

  predicate Listed(e: Event) {
    e.cmd.ListRoot? && Reported(e.raw).Ok?
  }

  predicate Accepted(e: Event) {
    Listed(e) && RootListing(e.raw.out)
  }

  predicate PiFound(e: Event) {
    Listed(e) && PiListing(e.raw.out)
  }

  /** Listing works, unmounting something works, and a mount says what it did. */
  predicate TameEvent(e: Event) {
    && (e.cmd.ListRoot? ==> Reported(e.raw).Ok?)
    && (e.cmd.UnmountRoot? && e.root != [] ==> Reported(e.raw).Ok?)
    && (e.cmd.MountRoot? ==> if e.raw.failed then !Contains(e.raw.message, ALREADY) else Blank(e.raw.eut))
  }

  predicate Tame(run: seq<Event>) {
    forall e :: e in run ==> TameEvent(e)
  }

  /** No listing of this run showed a root or a Raspberry Pi partition. */
  predicate NothingFound(run: seq<Event>) {
    forall e :: e in run ==> !Accepted(e) && !PiFound(e)
  }

  predicate PiSeen(run: seq<Event>) {
    exists e :: e in run && PiFound(e)
  }

  lemma {:induction false} Assoc(a: seq<Event>, b: seq<Event>, c: seq<Event>)
    ensures a + b + c == a + (b + c)
  {
  }

  lemma {:induction false} Two(a: seq<Event>, b: Event, c: Event)
    ensures a + [b] + [c] == a + [b, c]
  {
  }

  lemma {:induction false} RunsJoin(a: seq<Event>, b: seq<Event>)
    ensures Tame(a + b) <==> Tame(a) && Tame(b)
    ensures NothingFound(a + b) <==> NothingFound(a) && NothingFound(b)
    ensures PiSeen(a + b) <==> PiSeen(a) || PiSeen(b)
  {
    assert forall e :: e in a + b <==> e in a || e in b;
  }

  lemma {:induction false} SingleRun(e: Event)
    ensures Tame([e]) <==> TameEvent(e)
    ensures NothingFound([e]) <==> !Accepted(e) && !PiFound(e)
  {
    assert e in [e];
  }

  // ----- scripts -----

  /** What of the exit of a command makes it fail: nothing, an error, or also text on the error channel. */
  datatype Counts = Nothing | ExitOnly | AnyError

  datatype Step = Step(cmd: Command, counts: Counts)

  predicate Fails(e: Event, counts: Counts) {
    match counts
    case Nothing => false
    case ExitOnly => e.raw.failed
    case AnyError => e.raw.failed || !Blank(e.raw.eut)
  }

  /** The run sends the commands of the script one after the other up to the first that fails; `err` says
      whether one did. */
  predicate Follows(run: seq<Event>, script: seq<Step>, err: bool)
    decreases |script|
  {
    if script == [] then run == [] && !err
    else
      && run != [] && run[0].cmd == script[0].cmd
      && if Fails(run[0], script[0].counts) then |run| == 1 && err else Follows(run[1..], script[1..], err)
  }

  lemma {:induction false} OneStep(e: Event, counts: Counts)
    ensures Follows([e], [Step(e.cmd, counts)], Fails(e, counts))
  {
  }

  lemma {:induction false} FollowsOn(a: seq<Event>, s: seq<Step>, b: seq<Event>, t: seq<Step>, err: bool)
    requires Follows(a, s, false) && Follows(b, t, err)
    ensures Follows(a + b, s + t, err)
    decreases |s|
  {
    if s == [] {
      assert a + b == b && s + t == t;
    } else {
      FollowsOn(a[1..], s[1..], b, t, err);
      assert (a + b)[1..] == a[1..] + b && (s + t)[1..] == s[1..] + t;
    }
  }

  lemma {:induction false} FollowsNoFurther(a: seq<Event>, s: seq<Step>, t: seq<Step>)
    requires Follows(a, s, true)
    ensures Follows(a, s + t, true)
    decreases |s|
  {
    if !Fails(a[0], s[0].counts) {
      FollowsNoFurther(a[1..], s[1..], t);
      assert (s + t)[1..] == s[1..] + t;
    }
  }

  lemma {:induction false} FollowsAll(run: seq<Event>, script: seq<Step>, err: bool)
    requires Follows(run, script, err)
    ensures |run| <= |script| && (!err ==> |run| == |script|)
    ensures forall i :: 0 <= i < |run| ==> run[i].cmd == script[i].cmd
    decreases |script|
  {
    if script != [] && !Fails(run[0], script[0].counts) {
      FollowsAll(run[1..], script[1..], err);
      assert forall i :: 0 < i < |run| ==> run[i] == run[1..][i - 1];
    }
  }

  lemma {:induction false} NextStep(run: seq<Event>, script: seq<Step>, e: Event, counts: Counts)
    requires Follows(run, script, false)
    ensures Follows(run + [e], script + [Step(e.cmd, counts)], Fails(e, counts))
  {
    OneStep(e, counts);
    FollowsOn(run, script, [e], [Step(e.cmd, counts)], Fails(e, counts));
  }

  datatype Probe = Rejected | RootFound | PiImage

  /** What a round of the detection loop comes to. */
  ghost predicate Probed(run: seq<Event>, probe: Probe) {
    match probe
    case Rejected => NothingFound(run)
    case RootFound => run != [] && Accepted(run[|run| - 1]) && NothingFound(run[..|run| - 1])
    case PiImage => PiSeen(run)
  }

  // ----- the detection loop as a sequence of rounds -----

  predicate Complains(e: Event, text: string) {
    Reported(e.raw).Err? && Contains(Reported(e.raw).offender, text)
  }

  /** The commands of a mount: one attempt, and a repair with a second one if and only if the first is
      answered by a complaint about the file system. */
  predicate Mounting(run: seq<Event>, part: string) {
    && run != [] && run[0].cmd == MountRoot(part)
    && if Complains(run[0], WRONG_FS) then Repairing(run[1..], part) else |run| == 1
  }

  predicate Repairing(run: seq<Event>, part: string) {
    && run != [] && run[0].cmd.KernelLog?
    && (|run| > 1 ==> Reported(run[0].raw).Ok? && run[1].cmd.InstallTools?)
    && (|run| > 2 ==> |run| == 4 && Reported(run[1].raw).Ok? && run[2].cmd.Resize? && run[2].cmd.part == part &&
                      run[3].cmd == MountRoot(part))
  }

  /** A mount succeeds when its last attempt does, or when the first says that it is mounted already. */
  predicate MountDone(run: seq<Event>)
    requires run != []
  {
    var last := run[|run| - 1];
    last.cmd.MountRoot? && (Reported(last.raw).Ok? || (|run| == 1 && Complains(last, ALREADY)))
  }

  /** A repair is given up only for a reason: no kernel log, no block count in it, or no tools. */
  predicate GivenUp(repair: seq<Event>, blockCount: string -> Result<string>) {
    && (|repair| == 1 ==> Reported(repair[0].raw).Err? || blockCount(repair[0].raw.out).Err?)
    && (|repair| == 2 ==> Reported(repair[1].raw).Err?)
    && (|repair| > 2 ==> repair[2].cmd.Resize? && blockCount(repair[0].raw.out) == Ok(repair[2].cmd.blocks))
  }

  lemma {:induction false} RepairFollows(log: Event, rest: seq<Event>, part: string)
    requires log.cmd.KernelLog? && Reported(log.raw).Ok? && |rest| in {1, 3} && rest[0].cmd.InstallTools?
    requires |rest| == 3 ==>
               Reported(rest[0].raw).Ok? && rest[1].cmd.Resize? && rest[1].cmd.part == part &&
               rest[2].cmd == MountRoot(part)
    ensures Repairing([log] + rest, part)
  {
  }

  predicate OnTop(root: seq<string>, part: string) {
    root != [] && root[|root| - 1] == part
  }

  /** A round for one partition: it is mounted; only if that succeeds it is listed, and unmounted again if
      and only if the listing shows something else than a root. */
  predicate RoundOf(mount: seq<Event>, listing: seq<Event>, part: string) {
    && Mounting(mount, part)
    && if !MountDone(mount) then listing == []
       else Listing(listing) && (Reported(mount[|mount| - 1].raw).Ok? ==> OnTop(listing[0].root, part))
  }

  predicate Listing(run: seq<Event>) {
    && 0 < |run| <= 2 && run[0].cmd.ListRoot?
    && (|run| == 2 <==> Listed(run[0]) && !RootListing(run[0].raw.out))
    && (|run| == 2 ==> run[1].cmd.UnmountRoot?)
  }

  ghost predicate Round(run: seq<Event>, part: string) {
    exists mount, listing :: RoundOf(mount, listing, part) && run == mount + listing
  }

  lemma {:induction false} RoundJoins(mount: seq<Event>, listing: seq<Event>, part: string)
    requires RoundOf(mount, listing, part)
    ensures Round(mount + listing, part)
  {
  }

  predicate Quiet(run: seq<Event>) {
    forall e :: e in run ==> !e.cmd.MountRoot? && !e.cmd.ListRoot?
  }

  /** The run of a search: other commands, then one round after the other. */
  datatype Search = Search(before: seq<Event>, rounds: seq<seq<Event>>)

  function Flat(rounds: seq<seq<Event>>): seq<Event> {
    if rounds == [] then [] else Flat(rounds[..|rounds| - 1]) + rounds[|rounds| - 1]
  }

  function RunOf(s: Search): seq<Event> {
    s.before + Flat(s.rounds)
  }

  /** One round for each of the first partitions in their order, all in vain. */
  ghost predicate InVain(before: seq<Event>, rounds: seq<seq<Event>>, opts: seq<string>) {
    && Quiet(before) && |rounds| <= |opts|
    && forall j :: 0 <= j < |rounds| ==> Round(rounds[j], opts[j]) && NothingFound(rounds[j])
  }

  /** The partitions before the `k`-th are searched in vain, and the round for the `k`-th ends the search
      with an accepted listing. */
  ghost predicate FoundAt(s: Search, opts: seq<string>, k: nat) {
    && |s.rounds| == k + 1 <= |opts| && InVain(s.before, s.rounds[..k], opts)
    && Round(s.rounds[k], opts[k]) && Probed(s.rounds[k], RootFound)
  }

  /** The same, but the last round shows a Raspberry Pi partition. */
  ghost predicate PiAt(s: Search, opts: seq<string>, k: nat) {
    && |s.rounds| == k + 1 <= |opts| && InVain(s.before, s.rounds[..k], opts)
    && Round(s.rounds[k], opts[k]) && PiSeen(s.rounds[k])
  }

  ghost predicate NoneFound(s: Search, opts: seq<string>) {
    |s.rounds| == |opts| && InVain(s.before, s.rounds, opts)
  }

  /** Whatever was mounted has been listed. */
  ghost predicate MountedIsListed(run: seq<Event>) {
    forall e :: e in run && e.cmd.MountRoot? && Reported(e.raw).Ok? ==> ListedIn(run, e.cmd.part)
  }

  ghost predicate ListedIn(run: seq<Event>, part: string) {
    exists l :: l in run && l.cmd.ListRoot? && OnTop(l.root, part)
  }

  predicate MountTried(run: seq<Event>, part: string) {
    exists e :: e in run && e.cmd == MountRoot(part)
  }

  /** Exactly the first `n` partitions were tried, and each one that was mounted was listed. */
  ghost predicate TriedAndListed(run: seq<Event>, opts: seq<string>, n: nat)
    requires n <= |opts|
  {
    MountedIsListed(run) && forall part :: part in opts[..n] <==> MountTried(run, part)
  }

  /** The run ends with the first listing that shows a root, on a tame machine that of the partition. */
  ghost predicate EndsAt(run: seq<Event>, part: string) {
    Probed(run, RootFound) && (Tame(run) ==> OnTop(run[|run| - 1].root, part))
  }

  lemma {:induction false} TriedJoin(a: seq<Event>, b: seq<Event>)
    ensures forall p :: MountTried(a + b, p) <==> MountTried(a, p) || MountTried(b, p)
  {
    forall p ensures MountTried(a + b, p) <==> MountTried(a, p) || MountTried(b, p) {
      assert forall e :: e in a + b <==> e in a || e in b;
    }
  }

  lemma {:induction false} ListedJoin(a: seq<Event>, b: seq<Event>)
    requires MountedIsListed(a) && MountedIsListed(b)
    ensures MountedIsListed(a + b)
  {
    forall e | e in a + b && e.cmd.MountRoot? && Reported(e.raw).Ok? ensures ListedIn(a + b, e.cmd.part) {
      var run := if e in a then a else b;
      var l :| l in run && l.cmd.ListRoot? && OnTop(l.root, e.cmd.part);
      assert l in a + b;
    }
  }

  /** Only the partition is mounted, and a mount that works is the last command. */
  lemma {:induction false} MountsOne(run: seq<Event>, part: string)
    requires Mounting(run, part)
    ensures NothingFound(run)
    ensures forall e :: e in run && e.cmd.MountRoot? ==>
              e.cmd.part == part && (Reported(e.raw).Ok? ==> MountDone(run) && e == run[|run| - 1])
  {
    forall i | 0 <= i < |run| && run[i].cmd.MountRoot?
      ensures run[i].cmd.part == part && (Reported(run[i].raw).Ok? ==> MountDone(run) && i == |run| - 1)
    {
      assert |run| == 1 || i in {0, 4};
    }
  }

  lemma {:induction false} RoundMeans(run: seq<Event>, part: string)
    requires Round(run, part)
    ensures TriedAndListed(run, [part], 1)
    ensures Probed(run, RootFound) ==> EndsAt(run, part)
  {
    var mount, listing :| RoundOf(mount, listing, part) && run == mount + listing;
    RoundTries(run, mount, listing, part);
    RoundEnds(run, mount, listing, part);
  }

  lemma {:induction false} RoundTries(run: seq<Event>, mount: seq<Event>, listing: seq<Event>, part: string)
    requires run == mount + listing && RoundOf(mount, listing, part)
    ensures TriedAndListed(run, [part], 1)
  {
    MountsOne(mount, part);
    assert mount[0] in mount && mount[0] in run && [part][..1] == [part];
    assert !exists e :: e in listing && e.cmd.MountRoot?;
    forall e | e in run && e.cmd.MountRoot? && Reported(e.raw).Ok? ensures ListedIn(run, e.cmd.part) {
      assert e in mount && listing[0] in run;
    }
  }

  lemma {:induction false} RoundEnds(run: seq<Event>, mount: seq<Event>, listing: seq<Event>, part: string)
    requires run == mount + listing && RoundOf(mount, listing, part)
    ensures Probed(run, RootFound) ==> EndsAt(run, part)
  {
    MountsOne(mount, part);
    var last := mount[|mount| - 1];
    assert last in mount && last in run;
    assert listing == [] ==> run == mount;
    assert listing != [] ==> run[|run| - 1] == listing[|listing| - 1];
  }

  /** A search in vain: every one of the partitions was tried and no other, everything that was mounted was
      listed, and no listing showed a root or a Raspberry Pi partition. */
  lemma {:induction false} InVainMeans(before: seq<Event>, rounds: seq<seq<Event>>, opts: seq<string>)
    requires InVain(before, rounds, opts)
    ensures NothingFound(before + Flat(rounds)) && TriedAndListed(before + Flat(rounds), opts, |rounds|)
    decreases |rounds|
  {
    if rounds != [] {
      var n := |rounds| - 1;
      InVainFront(before, rounds, opts);
      InVainMeans(before, rounds[..n], opts);
      RoundAdded(before + Flat(rounds[..n]), rounds[n], opts, n);
      LastRound(Search(before, rounds));
    }
  }

  lemma {:induction false} InVainFront(before: seq<Event>, rounds: seq<seq<Event>>, opts: seq<string>)
    requires rounds != [] && InVain(before, rounds, opts)
    ensures var n := |rounds| - 1;
            InVain(before, rounds[..n], opts) && TriedAndListed(rounds[n], [opts[n]], 1) && NothingFound(rounds[n])
  {
    RoundMeans(rounds[|rounds| - 1], opts[|rounds| - 1]);
  }

  lemma {:induction false} RoundAdded(run: seq<Event>, round: seq<Event>, opts: seq<string>, n: nat)
    requires n < |opts| && NothingFound(run)
    requires TriedAndListed(run, opts, n) && TriedAndListed(round, [opts[n]], 1)
    ensures TriedAndListed(run + round, opts, n + 1)
    ensures NothingFound(round) ==> NothingFound(run + round)
    ensures EndsAt(round, opts[n]) ==> EndsAt(run + round, opts[n])
  {
    RunsJoin(run, round);
    ListedJoin(run, round);
    TriedJoin(run, round);
    if EndsAt(round, opts[n]) {
      ProbedAfter(run, round, RootFound);
    }
    assert opts[..n + 1] == opts[..n] + [opts[n]];
    assert [opts[n]][..1] == [opts[n]];
  }

  /** A search that ends at partition `k`: the same holds of the partitions before it, no later one is tried,
      and the run ends with the first listing that shows a root, which on a tame machine is one of `k`. */
  lemma {:induction false} FoundMeans(s: Search, opts: seq<string>, k: nat)
    requires FoundAt(s, opts, k)
    ensures EndsAt(RunOf(s), opts[k]) && TriedAndListed(RunOf(s), opts, k + 1)
  {
    InVainMeans(s.before, s.rounds[..k], opts);
    RoundMeans(s.rounds[k], opts[k]);
    RoundAdded(s.before + Flat(s.rounds[..k]), s.rounds[k], opts, k);
    LastRound(s);
  }

  lemma {:induction false} LastRound(s: Search)
    requires s.rounds != []
    ensures var k := |s.rounds| - 1; RunOf(s) == s.before + Flat(s.rounds[..k]) + s.rounds[k]
  {
  }

  lemma {:induction false} SearchGoesOn(s: Search, round: seq<Event>, opts: seq<string>) returns (s': Search)
    requires InVain(s.before, s.rounds, opts) && |s.rounds| < |opts| && Round(round, opts[|s.rounds|])
    ensures RunOf(s') == RunOf(s) + round && |s'.rounds| == |s.rounds| + 1 && s'.before == s.before
    ensures NothingFound(round) ==> InVain(s'.before, s'.rounds, opts)
    ensures Probed(round, RootFound) ==> FoundAt(s', opts, |s.rounds|)
    ensures PiSeen(round) ==> PiAt(s', opts, |s.rounds|)
  {
    s' := s.(rounds := s.rounds + [round]);
    assert s'.rounds[..|s.rounds|] == s.rounds;
  }

  lemma {:induction false} SearchLater(quiet: seq<Event>, s: Search, opts: seq<string>, k: nat) returns (s': Search)
    requires Quiet(quiet)
    ensures RunOf(s') == quiet + RunOf(s) && s'.before == quiet + s.before
    ensures FoundAt(s, opts, k) ==> FoundAt(s', opts, k)
    ensures PiAt(s, opts, k) ==> PiAt(s', opts, k)
    ensures NoneFound(s, opts) ==> NoneFound(s', opts)
  {
    s' := s.(before := quiet + s.before);
  }

  lemma {:induction false} ProbedAfter(quiet: seq<Event>, run: seq<Event>, probe: Probe)
    requires NothingFound(quiet) && Probed(run, probe)
    ensures Probed(quiet + run, probe)
  {
    RunsJoin(quiet, run);
    match probe
    case Rejected =>
    case RootFound =>
      assert (quiet + run)[..|quiet + run| - 1] == quiet + run[..|run| - 1];
      RunsJoin(quiet, run[..|run| - 1]);
    case PiImage =>
  }

  // ----- whole runs -----

  /** The image is attached to a loop device after all others are detached; only that may fail. */
  function AttachScript(img: string): seq<Step> {
    [Step(DetachLoops, Nothing), Step(AttachLoop(img), AnyError), Step(MakeMountDir, AnyError)]
  }

  function ListScript(img: string): seq<Step> {
    AttachScript(img) + [Step(ListPartitions, AnyError)]
  }

  /** Attaching an image and mounting a given partition. Without an image nothing is sent. */
  ghost predicate GivenRun(run: seq<Event>, img: string, part: string, err: bool) {
    if img == "" then run == [] && err
    else (err && Follows(run, AttachScript(img), true)) ||
         exists attach, mount :: GivenBy(run, attach, mount, img, part, err)
  }

  ghost predicate GivenBy(run: seq<Event>, attach: seq<Event>, mount: seq<Event>, img: string, part: string, err: bool) {
    && run == attach + mount && Follows(attach, AttachScript(img), false)
    && Mounting(mount, part) && err == !MountDone(mount)
  }

  /** Did the user want to configure the board? */
  predicate Wanted(run: seq<Event>) {
    exists e :: e in run && e.cmd.AskConfigure? && !e.raw.failed
  }

  /** What the Raspberry Pi does once its main partition is mounted. */
  function PiScript(quiet: bool, wanted: bool): seq<Step> {
    PiStart(quiet, wanted) + [Step(UnmountBoot, ExitOnly), Step(DetachLoops, ExitOnly)]
  }

  function PiStart(quiet: bool, wanted: bool): seq<Step> {
    [Step(MakeBootDir, ExitOnly), Step(MountBoot, ExitOnly)] + PiAnswers(quiet, wanted)
  }

  function PiAnswers(quiet: bool, wanted: bool): seq<Step> {
    (if quiet then [Step(TouchSsh, Nothing)]
     else [Step(AskConfigure, Nothing)] + if wanted then [Step(SetUp(PiFlow), ExitOnly)] else []) +
    [Step(WriteFiles(PiFlow), ExitOnly)]
  }

  /** What the SD flasher does once a root partition is mounted. */
  function DefaultScript(quiet: bool, wanted: bool): seq<Step> {
    if quiet then []
    else [Step(AskConfigure, Nothing)] +
         if wanted then [Step(SetUp(DefaultFlow), ExitOnly), Step(WriteFiles(DefaultFlow), ExitOnly)] else []
  }

  lemma {:induction false} WantedJoin(a: seq<Event>, b: seq<Event>)
    ensures Wanted(a + b) <==> Wanted(a) || Wanted(b)
  {
    assert forall e :: e in a + b <==> e in a || e in b;
  }

  /** The configuration of a Raspberry Pi image. */
  ghost predicate PiRun(run: seq<Event>, img: string, quiet: bool, err: bool) {
    (err && GivenRun(run, img, "loop0p2", true)) || exists mounting, rest :: PiBy(run, mounting, rest, img, quiet, err)
  }

  ghost predicate PiBy(run: seq<Event>, mounting: seq<Event>, rest: seq<Event>, img: string, quiet: bool, err: bool) {
    && run == mounting + rest && GivenRun(mounting, img, "loop0p2", false)
    && Follows(rest, PiScript(quiet, Wanted(rest)), err)
  }

  lemma {:induction false} PiStarts(boot: seq<Event>, answers: seq<Event>, quiet: bool, err: bool)
    requires Follows(boot, [Step(MakeBootDir, ExitOnly), Step(MountBoot, ExitOnly)], false)
    requires Follows(answers, PiAnswers(quiet, Wanted(answers)), err)
    ensures Follows(boot + answers, PiStart(quiet, Wanted(boot + answers)), err)
  {
    var script := [Step(MakeBootDir, ExitOnly), Step(MountBoot, ExitOnly)];
    FollowsAll(boot, script, false);
    WantedJoin(boot, answers);
    FollowsOn(boot, script, answers, PiAnswers(quiet, Wanted(answers)), err);
  }

  lemma {:induction false} PiEnds(run: seq<Event>, rest: seq<Event>, quiet: bool, err: bool)
    requires Follows(run, PiStart(quiet, Wanted(run)), false)
    requires Follows(rest, [Step(UnmountBoot, ExitOnly), Step(DetachLoops, ExitOnly)], err)
    ensures Follows(run + rest, PiScript(quiet, Wanted(run + rest)), err)
  {
    var script := [Step(UnmountBoot, ExitOnly), Step(DetachLoops, ExitOnly)];
    FollowsAll(rest, script, err);
    WantedJoin(run, rest);
    FollowsOn(run, PiStart(quiet, Wanted(run)), rest, script, err);
  }

  /** A detection: the commands that attach the image and list its partitions, the unmounting of the folder, the
      search, and the configuration of a Raspberry Pi. */
  datatype Detection = Detection(head: seq<Event>, clear: Event, opts: seq<string>, k: nat, search: Search,
                                 config: seq<Event>)

  const NO_DETECTION := Detection([], Event(UnmountRoot, [], NOT_MOUNTED), [], 0, Search([], []), [])

  /** Without an image nothing is sent. If one of the first commands fails, that is the end and the error. If
      they list no partitions, that is the end without an error. */
  ghost predicate Detected(run: seq<Event>, d: Detection, img: string, quiet: bool, partitions: string -> seq<string>,
                           err: bool, pi: bool, mounted: bool) {
    if img == "" then run == [] && err && !pi
    else if err && !pi then Follows(run, ListScript(img), true)
    else
      && Follows(d.head, ListScript(img), false) && |d.head| == 4 && d.opts == partitions(d.head[3].raw.out)
      && if d.opts == [] then run == d.head && !err && !pi && !mounted
         else
           && d.clear.cmd.UnmountRoot? && d.search.before == d.head + [d.clear] && run == RunOf(d.search) + d.config
           && if pi then PiAt(d.search, d.opts, d.k) && PiRun(d.config, img, quiet, err)
              else d.config == [] && if mounted then FoundAt(d.search, d.opts, d.k) else NoneFound(d.search, d.opts)
  }

  /** What a detection without an error and without a Raspberry Pi comes to: everything mounted was listed, and the
      run ends with the first root listing, or no listing shows anything. */
  lemma {:induction false} DetectionMeans(run: seq<Event>, d: Detection, img: string, quiet: bool,
                                          partitions: string -> seq<string>, mounted: bool)
    requires Detected(run, d, img, quiet, partitions, false, false, mounted)
    ensures MountedIsListed(run)
    ensures if mounted then d.k < |d.opts| && EndsAt(run, d.opts[d.k]) else NothingFound(run)
  {
    if d.opts == [] {
      FollowsAll(d.head, ListScript(img), false);
    } else {
      assert RunOf(d.search) + [] == RunOf(d.search);
      if mounted {
        FoundMeans(d.search, d.opts, d.k);
      } else {
        InVainMeans(d.search.before, d.search.rounds, d.opts);
      }
    }
  }

  /** What stays mounted after a detection, from at most one mount and on a tame machine: with no partitions what
      there was, otherwise the root partition found or the main one of a Raspberry Pi, and nothing else. */
  ghost predicate MountsLeft(was: seq<string>, root: seq<string>, tame: bool, d: Detection, err: bool, pi: bool,
                             mounted: bool) {
    && (!err && !pi && d.opts == [] ==> root == was)
    && (!err && !pi && d.opts != [] && tame && |was| <= 1 ==>
          if mounted then d.k < |d.opts| && root == [d.opts[d.k]] else root == [])
    && (!err && pi && tame && |was| <= 1 ==> root == ["loop0p2"])
  }

  /** What follows the mounting: nothing for a Raspberry Pi, a question when nothing was found, and the dialog
      with the configurator when a root is mounted. */
  ghost predicate AfterMounting(rest: seq<Event>, quiet: bool, mountErr: bool, configured: bool, mounted: bool,
                                err: bool) {
    if mountErr || configured then rest == [] && err == mountErr
    else if !mounted then |rest| == 1 && rest[0].cmd.AskProceed? && err == rest[0].raw.failed
    else Follows(rest, DefaultScript(quiet, Wanted(rest)), err)
  }

  // ----- the answers of the user -----

  lemma {:induction false} PiAnswersQuiet(touch: Event, write: Event)
    requires touch.cmd.TouchSsh? && write.cmd == WriteFiles(PiFlow)
    ensures Follows([touch, write], PiAnswers(true, Wanted([touch, write])), write.raw.failed)
  {
    OneStep(touch, Nothing);
    NextStep([touch], [Step(TouchSsh, Nothing)], write, ExitOnly);
    assert [touch] + [write] == [touch, write];
  }

  lemma {:induction false} PiAnswersDeclined(ask: Event, write: Event)
    requires ask.cmd.AskConfigure? && ask.raw.failed && write.cmd == WriteFiles(PiFlow)
    ensures Follows([ask, write], PiAnswers(false, Wanted([ask, write])), write.raw.failed)
  {
    OneStep(ask, Nothing);
    NextStep([ask], [Step(AskConfigure, Nothing)], write, ExitOnly);
    assert [ask] + [write] == [ask, write] && !Wanted([ask, write]);
    assert [Step(AskConfigure, Nothing)] + [] == [Step(AskConfigure, Nothing)];
  }

  /** The question, answered with yes, and the Setup of a configurator. */
  lemma {:induction false} AskedAndSetUp(ask: Event, setup: Event, flow: Flow)
    requires ask.cmd.AskConfigure? && !ask.raw.failed && setup.cmd == SetUp(flow)
    ensures var script := [Step(AskConfigure, Nothing), Step(SetUp(flow), ExitOnly)];
            && Wanted([ask, setup]) && Follows([ask, setup], script, setup.raw.failed)
            && (setup.raw.failed ==> Follows([ask, setup], script + [Step(WriteFiles(flow), ExitOnly)], true))
  {
    var script := [Step(AskConfigure, Nothing), Step(SetUp(flow), ExitOnly)];
    OneStep(ask, Nothing);
    NextStep([ask], [Step(AskConfigure, Nothing)], setup, ExitOnly);
    assert [ask] + [setup] == [ask, setup] && ask in [ask, setup];
    assert [Step(AskConfigure, Nothing)] + [Step(SetUp(flow), ExitOnly)] == script;
    if setup.raw.failed {
      FollowsNoFurther([ask, setup], script, [Step(WriteFiles(flow), ExitOnly)]);
    }
  }

  lemma {:induction false} SetUpAndWritten(ask: Event, setup: Event, write: Event, flow: Flow)
    requires ask.cmd.AskConfigure? && !ask.raw.failed && setup.cmd == SetUp(flow) && !setup.raw.failed
    requires write.cmd == WriteFiles(flow)
    ensures var script := [Step(AskConfigure, Nothing), Step(SetUp(flow), ExitOnly)];
            && Wanted([ask, setup, write])
            && Follows([ask, setup, write], script + [Step(WriteFiles(flow), ExitOnly)], write.raw.failed)
  {
    AskedAndSetUp(ask, setup, flow);
    NextStep([ask, setup], [Step(AskConfigure, Nothing), Step(SetUp(flow), ExitOnly)], write, ExitOnly);
    assert [ask, setup] + [write] == [ask, setup, write] && ask in [ask, setup, write];
  }

  /** The dialogs before the configuration of a Raspberry Pi is written. */
  predicate PiDialogs(run: seq<Event>, quiet: bool, err: bool) {
    if quiet then |run| == 1 && run[0].cmd.TouchSsh? && !err
    else
      && run != [] && run[0].cmd.AskConfigure?
      && if run[0].raw.failed then |run| == 1 && !err
         else |run| == 2 && run[1].cmd == SetUp(PiFlow) && err == run[1].raw.failed
  }

  lemma {:induction false} PiWrites(run: seq<Event>, write: Event, quiet: bool)
    requires PiDialogs(run, quiet, false) && write.cmd == WriteFiles(PiFlow)
    ensures Follows(run + [write], PiAnswers(quiet, Wanted(run + [write])), write.raw.failed)
  {
    if quiet {
      PiAnswersQuiet(run[0], write);
      assert run + [write] == [run[0], write];
    } else if run[0].raw.failed {
      PiAnswersDeclined(run[0], write);
      assert run + [write] == [run[0], write];
    } else {
      SetUpAndWritten(run[0], run[1], write, PiFlow);
      ConfiguratorScripts();
      assert run + [write] == [run[0], run[1], write];
    }
  }

  /** The dialog of the SD flasher: a question, then a Setup and, if it succeeds, the writing of the files. */
  predicate DefaultDialogs(run: seq<Event>, quiet: bool, err: bool) {
    if quiet then run == [] && !err
    else
      && run != [] && run[0].cmd.AskConfigure?
      && if run[0].raw.failed then |run| == 1 && !err else DefaultConfiguration(run[1..], err)
  }

  predicate DefaultConfiguration(run: seq<Event>, err: bool) {
    && run != [] && run[0].cmd == SetUp(DefaultFlow)
    && if run[0].raw.failed then |run| == 1 && err
       else |run| == 2 && run[1].cmd == WriteFiles(DefaultFlow) && err == run[1].raw.failed
  }

  lemma {:induction false} DefaultFollows(run: seq<Event>, quiet: bool, err: bool)
    requires DefaultDialogs(run, quiet, err)
    ensures Follows(run, DefaultScript(quiet, Wanted(run)), err) && Quiet(run)
    ensures Wanted(run) <==> |run| > 1
    ensures Wanted(run) ==> !quiet
  {
    if !quiet {
      OneStep(run[0], Nothing);
      ConfiguratorScripts();
      if run[0].raw.failed {
        assert run == [run[0]];
      } else if |run| == 2 {
        AskedAndSetUp(run[0], run[1], DefaultFlow);
        assert run == [run[0], run[1]];
      } else {
        SetUpAndWritten(run[0], run[1], run[2], DefaultFlow);
        assert run == [run[0], run[1], run[2]];
      }
    }
  }

  lemma {:induction false} ConfiguratorScripts()
    ensures PiAnswers(false, true) ==
            [Step(AskConfigure, Nothing), Step(SetUp(PiFlow), ExitOnly)] + [Step(WriteFiles(PiFlow), ExitOnly)]
    ensures DefaultScript(false, true) ==
            [Step(AskConfigure, Nothing), Step(SetUp(DefaultFlow), ExitOnly)] + [Step(WriteFiles(DefaultFlow), ExitOnly)]
    ensures DefaultScript(false, false) == [Step(AskConfigure, Nothing)]
  {
  }
}
