/** What `SaveHostname` of `device/config/configurator.go` leaves on the image. */
module HostName {
  import opened Text
  import opened Documents
  import opened Callbacks
  import opened DefaultCallbacks

  predicate Renames(st: Storage) {
    OLD_HOSTNAME in st && NEW_HOSTNAME in st && HasSsh(st)
  }

  /** The substitution that the stored names ask for in a file. */
  function Rename(st: Storage, f: ImageFile): Command {
    Substitute(f, Render(Stored(st, OLD_HOSTNAME)), Render(Stored(st, NEW_HOSTNAME)))
  }

  function Renamed(h: Host, st: Storage, was: Content): Content {
    var cmd := Rename(st, EtcHosts);
    if was.Present? then Present(h.sed(cmd.was, cmd.becomes, was.text)) else was
  }

  function ReplyTo(h: Host, st: Storage, files: Files, f: ImageFile): Reply {
    h.reply(Rename(st, f), Lookup(files, f))
  }

  /** Saving the host name reports success without having touched `/etc/hostname` exactly when the substitution
      in `/etc/hosts` succeeds and prints something on its error channel. Otherwise success means that both
      files are done, and an error comes from the first substitution that failed, whose file is as it was. */
  lemma {:induction false} SaveHostnameLeaves(h: Host, st: Storage, files: Files)
    requires Renames(st)
    ensures var o := Effect(HostnameFn(h), st, files);
            var hosts, name := ReplyTo(h, st, files, EtcHosts), ReplyTo(h, st, files, EtcHostname);
            var reached := !hosts.failed && Blank(hosts.eut);
            && (o.verdict.Fine? <==> !hosts.failed && (reached ==> !name.failed))
            && (o.verdict.Stop? ==> o.verdict.error == Failed(if hosts.failed then hosts.eut else name.eut))
            && Lookup(o.env.files, EtcHosts) ==
               (if hosts.failed then Lookup(files, EtcHosts) else Renamed(h, st, Lookup(files, EtcHosts)))
            && Lookup(o.env.files, EtcHostname) ==
               (if reached && !name.failed then Renamed(h, st, Lookup(files, EtcHostname))
                else Lookup(files, EtcHostname))
            && (o.verdict.Fine? ==>
                  Lookup(o.env.files, EtcHosts) == Renamed(h, st, Lookup(files, EtcHosts)))
            && forall f :: f != EtcHosts && f != EtcHostname ==> Lookup(o.env.files, f) == Lookup(files, f)
  {
    var tasks := [Task(Rename(st, EtcHosts), WatchStderr), Task(Rename(st, EtcHostname), WatchStderr)];
    HostnameTasks(h, st, files, tasks);
    var next := Execute(h, files, tasks[0].cmd).0;
    RenameLeaves(h, st, files, EtcHosts);
    RenameLeaves(h, st, next, EtcHostname);
    OneTask(h, next, tasks[1]);
    assert tasks[1..] == [tasks[1]];
  }

  lemma {:induction false} HostnameTasks(h: Host, st: Storage, files: Files, tasks: seq<Task>)
    requires Renames(st)
    requires tasks == [Task(Rename(st, EtcHosts), WatchStderr), Task(Rename(st, EtcHostname), WatchStderr)]
    ensures var (after, verdict) := Work(h, files, tasks);
            Effect(HostnameFn(h), st, files) == Outcome(Env(st, after), verdict)
  {
    HostnameEffect(h, st, files);
    assert HostnamePlan(st) == Do(tasks);
    assert Perform(h, Env(st, files), Do(tasks)).env.storage == st;
  }

  lemma {:induction false} HostnameEffect(h: Host, st: Storage, files: Files)
    ensures Effect(HostnameFn(h), st, files) == Perform(h, Env(st, files), HostnamePlan(st))
  {
  }

  lemma {:induction false} OneTask(h: Host, files: Files, t: Task)
    requires t.policy.WatchStderr?
    ensures var (next, r) := Execute(h, files, t.cmd);
            Work(h, files, [t]) == (next, if r.failed then Stop(Failed(r.eut)) else Fine)
  {
    assert Work(h, Execute(h, files, t.cmd).0, []) == (Execute(h, files, t.cmd).0, Fine);
  }

  lemma {:induction false} RenameLeaves(h: Host, st: Storage, files: Files, f: ImageFile)
    ensures var (next, r) := Execute(h, files, Rename(st, f));
            && r == ReplyTo(h, st, files, f)
            && Lookup(next, f) == (if r.failed then Lookup(files, f) else Renamed(h, st, Lookup(files, f)))
            && forall g :: g != f ==> Lookup(next, g) == Lookup(files, g)
  {
  }

  /** A host where every command succeeds, with a warning about `/etc/hosts`. */
  function WarningHost(hostname: string, user: User): Host {
    Host((cmd: Command, was: Content) => Reply(false, if cmd.file.EtcHosts? then "!" else ""), text => text,
         (was: string, becomes: string, text: string) => if text == was then becomes else text,
         Reply(false, ""), hostname, user)
  }

  function NamesStored(was: string, becomes: string): Storage {
    map[SSH_KEY := Ssh, OLD_HOSTNAME := Text(Plain(was)), NEW_HOSTNAME := Text(Plain(becomes))]
  }

  /** For example, that warning leaves the old name in `/etc/hostname`, and no error tells. */
  lemma {:induction false} WarningKeepsOldName(was: string, becomes: string, user: User)
    ensures var o := Effect(HostnameFn(WarningHost(was, user)), NamesStored(was, becomes),
                            map[EtcHosts := was, EtcHostname := was]);
            && o.verdict.Fine?
            && Lookup(o.env.files, EtcHosts) == Present(becomes) && Lookup(o.env.files, EtcHostname) == Present(was)
  {
    var h, st, files := WarningHost(was, user), NamesStored(was, becomes), map[EtcHosts := was, EtcHostname := was];
    StoredNames(was, becomes);
    SaveHostnameLeaves(h, st, files);
    assert !Blank("!") by { assert "!"[0] == '!'; }
    assert ReplyTo(h, st, files, EtcHosts) == Reply(false, "!");
  }

  lemma {:induction false} StoredNames(was: string, becomes: string)
    ensures var st := NamesStored(was, becomes);
            && Renames(st) && Render(Stored(st, OLD_HOSTNAME)) == was && Render(Stored(st, NEW_HOSTNAME)) == becomes
  {
    assert SSH_KEY[0] == 's' && OLD_HOSTNAME[0] == 'O' && NEW_HOSTNAME[0] == 'N';
  }
}
