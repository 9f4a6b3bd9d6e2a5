/** What whole sequences of lookups do to the image directories of the shared device tree. */
module DeviceDirectories {
  import opened DeviceTree
  import opened DeviceLookups

  /** A lookup that reaches `f` looks at child `j` of device `k` without having found the device itself. */
  predicate Scans(f: Found, k: nat, j: nat) {
    f.NoDevice? || k < f.i || (f.Below? && f.i == k && j <= f.j)
  }

  predicate ScannedBy(devs: seq<Tree>, lookups: seq<string>, k: nat, j: nat) {
    exists l :: 0 <= l < |lookups| && Scans(Locate(devs, lookups[l]), k, j)
  }

  function ParentName(t: Tree, p: seq<nat>): string
    requires p != [] && HasPath(t, p)
  {
    PathPrefix(t, p);
    At(t, p[..|p| - 1]).name
  }

  /** The directory of a node after one lookup. */
  lemma {:induction false} DirectoryAfter(d: Tree, k: nat, f: Found, p: seq<nat>)
    requires HasPath(d, p) && (f.Below? && f.i == k ==> f.j < |d.sub|)
    ensures HasPath(AfterAt(d, k, f), p)
    ensures At(AfterAt(d, k, f), p).dir ==
            if p != [] && ((f == Top(k) && d.images != []) || (|p| == 1 && Scans(f, k, p[0])))
            then ParentName(d, p) else At(d, p).dir
  {
    if p != [] {
      PathPrefix(d, p);
      if f == Top(k) {
        FilledDirectory(d, p);
      } else {
        ScannedDirectory(d, k, f, p);
      }
    }
  }

  lemma {:induction false} FilledDirectory(d: Tree, p: seq<nat>)
    requires p != [] && HasPath(d, p)
    ensures HasPath(HitTop(d), p)
    ensures At(HitTop(d), p).dir == if d.images != [] then ParentName(d, p) else At(d, p).dir
  {
    FillPaths(d, p);
    if d.images != [] {
      FillAt(d, p);
    }
    assert At(HitTop(d), p) == At(Fill(d), p);
  }

  lemma {:induction false} ScannedDirectory(d: Tree, k: nat, f: Found, p: seq<nat>)
    requires p != [] && HasPath(d, p) && f != Top(k) && (f.Below? && f.i == k ==> f.j < |d.sub|)
    ensures HasPath(AfterAt(d, k, f), p)
    ensures At(AfterAt(d, k, f), p).dir ==
            if |p| == 1 && Scans(f, k, p[0]) then ParentName(d, p) else At(d, p).dir
  {
    var c, c' := d.sub[p[0]], AfterAt(d, k, f).sub[p[0]];
    assert c'.sub == c.sub && c'.dir == if Scans(f, k, p[0]) then d.name else c.dir;
    if |p| == 1 {
      assert p[1..] == [] && p[..0] == [];
    } else {
      assert At(c', p[1..]) == At(c, p[1..]);
    }
  }

  /** Was the directory of the node at `p` below device `k` set by one of the lookups? */
  predicate DirectorySet(devs: seq<Tree>, lookups: seq<string>, k: nat, p: seq<nat>)
    requires k < |devs|
  {
    p != [] && ((devs[k].images != [] && TopReached(devs, lookups, k)) ||
                (|p| == 1 && ScannedBy(devs, lookups, k, p[0])))
  }

  lemma {:induction false} DirectorySetStep(devs: seq<Tree>, front: seq<string>, last: string, k: nat, p: seq<nat>)
    requires k < |devs|
    ensures var f := Locate(devs, last);
            DirectorySet(devs, front + [last], k, p) <==>
            DirectorySet(devs, front, k, p) ||
            (p != [] && ((f == Top(k) && devs[k].images != []) || (|p| == 1 && Scans(f, k, p[0]))))
  {
    var all := front + [last];
    ReachedStep(devs, front, last, k);
    if |p| == 1 {
      assert all[|front|] == last;
      assert forall l :: 0 <= l < |front| ==> all[l] == front[l];
      if ScannedBy(devs, front, k, p[0]) {
        var l :| 0 <= l < |front| && Scans(Locate(devs, front[l]), k, p[0]);
        assert Scans(Locate(devs, all[l]), k, p[0]);
      }
    }
  }

  /** After any run of lookups a node has the name of its parent as directory if and only if the device has
      images and was looked up itself, or the node is a direct child that some lookup scanned; every other node
      still has the directory it had. */
  lemma {:induction false} DirectoriesSettled(devs: seq<Tree>, lookups: seq<string>, k: nat, p: seq<nat>)
    requires k < |devs| && HasPath(devs[k], p)
    ensures var now := Run(devs, lookups)[k];
            && now.name == devs[k].name && now.images == devs[k].images && HasPath(now, p)
            && (p != [] ==> ParentName(now, p) == ParentName(devs[k], p))
            && At(now, p).dir == if DirectorySet(devs, lookups, k, p) then ParentName(devs[k], p) else At(devs[k], p).dir
    decreases |lookups|
  {
    NamesKept(devs, lookups, k, p);
    if lookups != [] {
      var front, last := lookups[..|lookups| - 1], lookups[|lookups| - 1];
      assert lookups == front + [last];
      DirectoriesSettled(devs, front, k, p);
      RunStep(devs, front, last, k);
      DirectorySetStep(devs, front, last, k, p);
      DirectoryAfter(Run(devs, front)[k], k, Locate(devs, last), p);
    }
  }

  lemma {:induction false} RunStep(devs: seq<Tree>, front: seq<string>, last: string, k: nat)
    requires k < |devs|
    ensures var f, now := Locate(devs, last), Run(devs, front)[k];
            && (f.Below? && f.i == k ==> f.j < |now.sub|)
            && Run(devs, front + [last])[k] == AfterAt(now, k, f)
            && AfterAt(now, k, f).name == now.name && AfterAt(now, k, f).images == now.images
  {
    RunSettled(devs, front);
    assert (front + [last])[..|front|] == front;
  }

  lemma {:induction false} NamesKept(devs: seq<Tree>, lookups: seq<string>, k: nat, p: seq<nat>)
    requires k < |devs| && HasPath(devs[k], p)
    ensures HasPath(Run(devs, lookups)[k], p)
    ensures p != [] ==> ParentName(Run(devs, lookups)[k], p) == ParentName(devs[k], p)
  {
    SamePaths(devs, lookups, k, p);
    if p != [] {
      PathPrefix(devs[k], p);
      SamePaths(devs, lookups, k, p[..|p| - 1]);
    }
  }

  lemma {:induction false} SamePaths(devs: seq<Tree>, lookups: seq<string>, k: nat, p: seq<nat>)
    requires k < |devs| && HasPath(devs[k], p)
    ensures HasPath(Run(devs, lookups)[k], p) && At(Run(devs, lookups)[k], p).name == At(devs[k], p).name
  {
    RunSettled(devs, lookups);
    var d, now := Bare(devs[k]), Bare(Run(devs, lookups)[k]);
    SettledKeepsEffective(d, TopReached(devs, lookups, k), BelowReached(devs, lookups, k));
    EffectiveName(devs[k], [], p);
    EffectivePaths(devs[k], [], p);
    EffectivePaths(Run(devs, lookups)[k], [], p);
    EffectiveName(Run(devs, lookups)[k], [], p);
  }

  lemma {:induction false} EffectiveName(t: Tree, inherited: seq<DeviceImage>, p: seq<nat>)
    requires HasPath(t, p)
    ensures HasPath(Effective(Bare(t), inherited), p) && At(Effective(Bare(t), inherited), p).name == At(t, p).name
    decreases |p|
  {
    if p != [] {
      EffectiveName(t.sub[p[0]], Own(t, inherited), p[1..]);
    }
  }

  /** The directory of a node below a device that is looked up itself. With images on the device it is always
      the name of the parent; without, earlier lookups decide: it is the name of the parent exactly for a
      direct child that one of them scanned. */
  lemma {:induction false} LeafDirectory(devs: seq<Tree>, lookups: seq<string>, device: string, p: seq<nat>)
    requires Locate(devs, device).Top? && p != [] && HasPath(devs[Locate(devs, device).i], p)
    ensures Locate(Run(devs, lookups), device) == Locate(devs, device)
    ensures var i, r := Locate(devs, device).i, Returned(Run(devs, lookups), device);
            && r.dir == devs[i].name && HasPath(r, p)
            && At(r, p).dir ==
               if devs[i].images != [] || (|p| == 1 && ScannedBy(devs, lookups, i, p[0]))
               then ParentName(devs[i], p) else At(devs[i], p).dir
  {
    var i := Locate(devs, device).i;
    var now := Run(devs, lookups)[i];
    RunSettled(devs, lookups);
    DirectoriesSettled(devs, lookups, i, p);
    FilledDirectory(now, p);
    assert TopResult(now).sub == HitTop(now).sub;
    assert At(TopResult(now), p) == At(HitTop(now), p);
  }

  /** A model that is looked up has the name of its device as directory, always; nodes below it have the names of
      their parents exactly when the device has images and was looked up itself. */
  lemma {:induction false} ModelDirectory(devs: seq<Tree>, lookups: seq<string>, device: string, p: seq<nat>)
    requires Locate(devs, device).Below?
    requires var f := Locate(devs, device); p != [] && HasPath(devs[f.i], [f.j] + p)
    ensures Locate(Run(devs, lookups), device) == Locate(devs, device)
    ensures var f, r := Locate(devs, device), Returned(Run(devs, lookups), device);
            && r.dir == devs[f.i].name && HasPath(r, p)
            && At(r, p).dir ==
               if devs[f.i].images != [] && TopReached(devs, lookups, f.i) then ParentName(devs[f.i], [f.j] + p)
               else At(devs[f.i], [f.j] + p).dir
  {
    var f, q := Locate(devs, device), [Locate(devs, device).j] + p;
    RunSettled(devs, lookups);
    DirectoriesSettled(devs, lookups, f.i, q);
    var now := Run(devs, lookups)[f.i];
    ScannedDirectory(now, f.i, f, q);
    assert q[1..] == p;
    assert AfterAt(now, f.i, f).sub[f.j] == Returned(Run(devs, lookups), device);
  }
}
