/** Properties of whole sequences of lookups on the shared device tree. */
module DeviceLookups {
  import opened DeviceTree

  // ----- paths -----

  predicate HasPath(t: Tree, p: seq<nat>) {
    p == [] || (p[0] < |t.sub| && HasPath(t.sub[p[0]], p[1..]))
  }

  function At(t: Tree, p: seq<nat>): Tree
    requires HasPath(t, p)
  {
    if p == [] then t else At(t.sub[p[0]], p[1..])
  }

  lemma {:induction false} PathPrefix(t: Tree, p: seq<nat>)
    requires p != [] && HasPath(t, p)
    ensures HasPath(t, p[..|p| - 1])
    ensures p[|p| - 1] < |At(t, p[..|p| - 1]).sub|
    ensures At(t, p) == At(t, p[..|p| - 1]).sub[p[|p| - 1]]
    decreases |p|
  {
    var q := p[..|p| - 1];
    if q != [] {
      PathPrefix(t.sub[p[0]], p[1..]);
      assert q[1..] == p[1..][..|p[1..]| - 1];
    }
  }

  /** The images of the nearest node, from the one at `p` upwards, that has any. */
  function Nearest(t: Tree, p: seq<nat>): seq<DeviceImage>
    requires HasPath(t, p)
    decreases |p|
  {
    if At(t, p).images != [] || p == [] then At(t, p).images
    else PathPrefix(t, p); Nearest(t, p[..|p| - 1])
  }

  function Own(t: Tree, inherited: seq<DeviceImage>): seq<DeviceImage> {
    if t.images == [] then inherited else t.images
  }

  /** The same from the top down, with something to inherit at the root. */
  function Inherited(t: Tree, p: seq<nat>, inherited: seq<DeviceImage>): seq<DeviceImage>
    requires HasPath(t, p)
    decreases |p|
  {
    if p == [] then Own(t, inherited) else Inherited(t.sub[p[0]], p[1..], Own(t, inherited))
  }

  lemma {:induction false} InheritedStep(t: Tree, p: seq<nat>, inherited: seq<DeviceImage>)
    requires p != [] && HasPath(t, p)
    ensures HasPath(t, p[..|p| - 1])
    ensures Inherited(t, p, inherited) == Own(At(t, p), Inherited(t, p[..|p| - 1], inherited))
    decreases |p|
  {
    PathPrefix(t, p);
    var q := p[..|p| - 1];
    if q != [] {
      InheritedStep(t.sub[p[0]], p[1..], Own(t, inherited));
      assert q[1..] == p[1..][..|p[1..]| - 1];
    }
  }

  lemma {:induction false} InheritedIsNearest(t: Tree, p: seq<nat>)
    requires HasPath(t, p)
    ensures Inherited(t, p, []) == Nearest(t, p)
    decreases |p|
  {
    if p != [] {
      InheritedStep(t, p, []);
      InheritedIsNearest(t, p[..|p| - 1]);
    }
  }

  lemma {:induction false} NearestOfRoot(t: Tree, p: seq<nat>)
    requires HasPath(t, p) && t.images != []
    ensures Nearest(t, p) != []
    decreases |p|
  {
    if p != [] {
      PathPrefix(t, p);
      NearestOfRoot(t, p[..|p| - 1]);
    }
  }

  // ----- fillEmptyImages -----

  /** The node `after` differs from `before` in directory and images only, and in nothing below it. */
  predicate OnlyFilled(before: Tree, after: Tree) {
    after.name == before.name && after.alias == before.alias && after.typ == before.typ &&
    after.image == before.image && |after.sub| == |before.sub|
  }

  lemma {:induction false} FillChildAt(t: Tree, parent: string, images: seq<DeviceImage>, p: seq<nat>)
    requires HasPath(t, p) && images != []
    ensures HasPath(FillChild(t, parent, images), p)
    ensures var after := At(FillChild(t, parent, images), p);
            && OnlyFilled(At(t, p), after)
            && after.images == Inherited(t, p, images)
            && (p == [] ==> after.dir == parent)
            && (p != [] ==> HasPath(t, p[..|p| - 1]) && after.dir == At(t, p[..|p| - 1]).name)
    decreases |p|
  {
    if p != [] {
      PathPrefix(t, p);
      FillChildAt(t.sub[p[0]], t.name, Own(t, images), p[1..]);
      assert |p| > 1 ==> p[..|p| - 1][1..] == p[1..][..|p[1..]| - 1];
    }
  }

  /** On a root with images, every node at every depth ends with the images of its nearest originally
      non-empty ancestor-or-self and the name of its parent as directory; nothing else changes. */
  lemma {:induction false} FillAt(t: Tree, p: seq<nat>)
    requires HasPath(t, p) && t.images != []
    ensures HasPath(Fill(t), p)
    ensures OnlyFilled(At(t, p), At(Fill(t), p))
    ensures At(Fill(t), p).images == Nearest(t, p)
    ensures if p == [] then At(Fill(t), p).dir == t.dir
            else HasPath(t, p[..|p| - 1]) && At(Fill(t), p).dir == At(t, p[..|p| - 1]).name
  {
    InheritedIsNearest(t, p);
    if p != [] {
      PathPrefix(t, p);
      FillChildAt(t.sub[p[0]], t.name, t.images, p[1..]);
      assert |p| > 1 ==> p[..|p| - 1][1..] == p[1..][..|p[1..]| - 1];
    }
  }

  lemma {:induction false} FillChildPaths(t: Tree, parent: string, images: seq<DeviceImage>, p: seq<nat>)
    ensures HasPath(FillChild(t, parent, images), p) <==> HasPath(t, p)
    decreases |p|
  {
    if p != [] && p[0] < |t.sub| { FillChildPaths(t.sub[p[0]], t.name, Own(t, images), p[1..]); }
  }

  lemma {:induction false} FillPaths(t: Tree, p: seq<nat>)
    ensures HasPath(Fill(t), p) <==> HasPath(t, p)
  {
    if p != [] && p[0] < |t.sub| { FillChildPaths(t.sub[p[0]], t.name, t.images, p[1..]); }
  }

  lemma {:induction false} FillChildTwice(t: Tree, parent: string, images: seq<DeviceImage>)
    requires images != []
    ensures FillChild(FillChild(t, parent, images), parent, images) == FillChild(t, parent, images)
    decreases t
  {
    var once := FillChild(t, parent, images);
    forall i | 0 <= i < |t.sub| ensures FillChild(once.sub[i], t.name, once.images) == once.sub[i] {
      FillChildTwice(t.sub[i], t.name, once.images);
    }
    assert FillChild(once, parent, images).sub == once.sub;
  }

  /** Filling twice is filling once, and a root without images is left alone. */
  lemma {:induction false} FillIdempotent(t: Tree)
    ensures Fill(Fill(t)) == Fill(t)
    ensures t.images == [] ==> Fill(t) == t
  {
    if t.images != [] {
      forall i | 0 <= i < |t.sub| ensures FillChild(Fill(t).sub[i], t.name, t.images) == Fill(t).sub[i] {
        FillChildTwice(t.sub[i], t.name, t.images);
      }
      assert Fill(Fill(t)).sub == Fill(t).sub;
    }
  }

  // ----- which device a lookup reaches -----

  predicate IsEntry(devs: seq<Tree>, f: Found) {
    match f
    case NoDevice => false
    case Top(i) => i < |devs|
    case Below(i, j) => i < |devs| && j < |devs[i].sub|
  }

  function Entry(devs: seq<Tree>, f: Found): Tree
    requires IsEntry(devs, f)
  {
    if f.Top? then devs[f.i] else devs[f.i].sub[f.j]
  }

  /** The order of the flattened list: a device, then its direct children, then the next device. */
  predicate Precedes(f: Found, g: Found)
    requires !f.NoDevice? && !g.NoDevice?
  {
    f.i < g.i || (f.i == g.i && g.Below? && (f.Top? || f.j < g.j))
  }

  ghost predicate FirstMatch(devs: seq<Tree>, search: string, f: Found) {
    if f.NoDevice? then forall g :: IsEntry(devs, g) ==> !Matches(Entry(devs, g), search)
    else
      && IsEntry(devs, f) && Matches(Entry(devs, f), search)
      && forall g :: IsEntry(devs, g) && Precedes(g, f) ==> !Matches(Entry(devs, g), search)
  }

  lemma {:induction false} LocateFromIsFirst(devs: seq<Tree>, search: string, i: nat)
    requires i <= |devs|
    requires forall g :: IsEntry(devs, g) && g.i < i ==> !Matches(Entry(devs, g), search)
    ensures FirstMatch(devs, search, LocateFrom(devs, search, i))
    decreases |devs| - i
  {
    if i < |devs| && Here(devs[i], search, i).NoDevice? {
      LocateFromIsFirst(devs, search, i + 1);
    }
  }

  /** findDevice takes the first match of the flattened list and fails exactly when none matches. */
  lemma {:induction false} LocateIsFirst(devs: seq<Tree>, device: string, f: Found)
    ensures Locate(devs, device) == f <==> FirstMatch(devs, ToLower(device), f)
  {
    LocateFromIsFirst(devs, ToLower(device), 0);
  }

  /** Looking up the name of a device that was found, as `New` followed by `getFlasher` does, reaches the
      same device exactly when no earlier entry answers to that name. */
  lemma {:induction false} ResolveAgain(devs: seq<Tree>, device: string)
    requires !Locate(devs, device).NoDevice?
    ensures var f := Locate(devs, device);
            Locate(devs, Entry(devs, f).name) == f <==>
            forall g :: IsEntry(devs, g) && Precedes(g, f) ==> !Matches(Entry(devs, g), ToLower(Entry(devs, f).name))
  {
    var f := Locate(devs, device);
    LocateIsFirst(devs, Entry(devs, f).name, f);
  }

  /** ... in particular when no other entry shares a name or an alias with it. */
  lemma {:induction false} DistinctNamesResolve(devs: seq<Tree>, device: string)
    requires !Locate(devs, device).NoDevice?
    requires forall g, h :: IsEntry(devs, g) && IsEntry(devs, h) && g != h ==>
               !Matches(Entry(devs, g), ToLower(Entry(devs, h).name))
    ensures Locate(devs, Entry(devs, Locate(devs, device)).name) == Locate(devs, device)
  {
    ResolveAgain(devs, device);
  }

  // ----- runs of lookups -----

  const NO_IMAGE := DeviceImage("", "", "", "", "", "")

  /** Names, aliases and images only. */
  function Bare(t: Tree): (b: Tree)
    ensures b.name == t.name && b.alias == t.alias && b.images == t.images && |b.sub| == |t.sub|
    decreases t
  {
    Tree(t.name, t.alias, t.images, "", "", NO_IMAGE,
         seq(|t.sub|, i requires 0 <= i < |t.sub| => Bare(t.sub[i])))
  }

  /** Every node with its effective images: its own, or the ones inherited from above. */
  function Effective(t: Tree, inherited: seq<DeviceImage>): (e: Tree)
    ensures e.name == t.name && e.alias == t.alias && |e.sub| == |t.sub|
    decreases t
  {
    t.(images := Own(t, inherited),
       sub := seq(|t.sub|, i requires 0 <= i < |t.sub| => Effective(t.sub[i], Own(t, inherited))))
  }

  function Run(devs: seq<Tree>, lookups: seq<string>): (devs': seq<Tree>)
    ensures |devs'| == |devs|
    decreases |lookups|
  {
    if lookups == [] then devs else After(Run(devs, lookups[..|lookups| - 1]), lookups[|lookups| - 1])
  }

  /** Was device `k` itself ever looked up? */
  predicate TopReached(devs: seq<Tree>, lookups: seq<string>, k: nat) {
    exists l :: 0 <= l < |lookups| && Locate(devs, lookups[l]) == Top(k)
  }

  /** The children of device `k` that were looked up. */
  function BelowReached(devs: seq<Tree>, lookups: seq<string>, k: nat): set<nat> {
    set l | 0 <= l < |lookups| && Locate(devs, lookups[l]).Below? && Locate(devs, lookups[l]).i == k ::
      Locate(devs, lookups[l]).j
  }

  /** The images a device carries after it was looked up itself (`top`) and some of its children were. */
  function Settled(d: Tree, top: bool, below: set<nat>): Tree {
    if d.images == [] then d
    else if top then Effective(d, [])
    else d.(sub := seq(|d.sub|, j requires 0 <= j < |d.sub| =>
                         if j in below then d.sub[j].(images := Own(d.sub[j], d.images)) else d.sub[j]))
  }

  lemma {:induction false} BareFillChild(t: Tree, parent: string, images: seq<DeviceImage>)
    ensures Bare(FillChild(t, parent, images)) == Effective(Bare(t), images)
    decreases t
  {
    var after := FillChild(t, parent, images);
    forall i | 0 <= i < |t.sub| ensures Bare(after.sub[i]) == Effective(Bare(t).sub[i], after.images) {
      BareFillChild(t.sub[i], t.name, after.images);
    }
    assert Bare(after).sub == Effective(Bare(t), images).sub;
  }

  lemma {:induction false} BareFill(t: Tree)
    ensures Bare(Fill(t)) == if t.images == [] then Bare(t) else Effective(Bare(t), [])
  {
    if t.images != [] {
      forall i | 0 <= i < |t.sub| ensures Bare(Fill(t).sub[i]) == Effective(Bare(t).sub[i], t.images) {
        BareFillChild(t.sub[i], t.name, t.images);
      }
      assert Bare(Fill(t)).sub == Effective(Bare(t), []).sub;
    }
  }

  /** Inheriting again changes nothing, nor does handing a child its images early. */
  lemma {:induction false} EffectiveAbsorbs(t: Tree, inherited: seq<DeviceImage>)
    ensures Effective(Effective(t, inherited), inherited) == Effective(t, inherited)
    ensures Effective(t.(images := Own(t, inherited)), inherited) == Effective(t, inherited)
    decreases t
  {
    var own := Own(t, inherited);
    forall i | 0 <= i < |t.sub| ensures Effective(Effective(t.sub[i], own), own) == Effective(t.sub[i], own) {
      EffectiveAbsorbs(t.sub[i], own);
    }
    assert Effective(Effective(t, inherited), inherited).sub == Effective(t, inherited).sub;
  }

  /** Lookups never change any effective image list. */
  lemma {:induction false} SettledKeepsEffective(d: Tree, top: bool, below: set<nat>)
    ensures Effective(Settled(d, top, below), []) == Effective(d, [])
  {
    EffectiveAbsorbs(d, []);
    if d.images != [] && !top {
      var s := Settled(d, top, below);
      forall j | 0 <= j < |d.sub| ensures Effective(s.sub[j], d.images) == Effective(d.sub[j], d.images) {
        EffectiveAbsorbs(d.sub[j], d.images);
      }
      assert Effective(s, []).sub == Effective(d, []).sub;
    }
  }

  lemma {:induction false} BareMarkFirst(d: Tree, n: nat)
    requires n <= |d.sub|
    ensures Bare(MarkFirst(d, n)) == Bare(d)
  {
    forall j | 0 <= j < |d.sub| ensures Bare(MarkFirst(d, n).sub[j]) == Bare(d.sub[j]) {
      assert Bare(MarkFirst(d, n).sub[j]).sub == Bare(d.sub[j]).sub;
    }
    assert Bare(MarkFirst(d, n)).sub == Bare(d).sub;
  }

  lemma {:induction false} BareHitBelow(d: Tree, j: nat)
    requires j < |d.sub|
    ensures var b := Bare(d);
            Bare(HitBelow(d, j)) == b.(sub := b.sub[j := b.sub[j].(images := Own(b.sub[j], b.images))])
  {
    BareMarkFirst(d, j + 1);
    var m := MarkFirst(d, j + 1);
    var h := HitBelow(d, j);
    assert Bare(m).sub[j] == Bare(d).sub[j];
    assert Bare(h.sub[j]).sub == Bare(m.sub[j]).sub;
    assert Bare(h).sub == Bare(d).sub[j := Bare(d).sub[j].(images := Own(Bare(d).sub[j], d.images))];
  }

  lemma {:induction false} BareHitTop(d: Tree)
    ensures Bare(HitTop(d)) == if d.images == [] then Bare(d) else Effective(Bare(d), [])
  {
    BareFill(d);
    assert Bare(HitTop(d)).sub == Bare(Fill(d)).sub;
  }

  lemma {:induction false} HitSettled(d: Tree, top: bool, below: set<nat>, j: nat)
    requires j < |d.sub|
    ensures var s := Settled(d, top, below);
            s.(sub := s.sub[j := s.sub[j].(images := Own(s.sub[j], s.images))]) == Settled(d, top, below + {j})
  {
    var s, s' := Settled(d, top, below), Settled(d, top, below + {j});
    assert s.images == s'.images == d.images;
    var c := s.sub[j];
    assert c == Tree(c.name, c.alias, c.images, c.typ, c.dir, c.image, c.sub);
    if d.images != [] && top {
      assert c == Effective(d.sub[j], d.images);
      assert c.images != [];
    }
    assert c.(images := Own(c, s.images)) == s'.sub[j];
    assert forall l :: 0 <= l < |d.sub| && l != j ==> s.sub[l] == s'.sub[l];
    assert s.sub[j := s.sub[j].(images := Own(s.sub[j], s.images))] == s'.sub;
  }

  /** One more lookup moves a settled device to the next settled state. */
  lemma {:induction false} SettledStep(d: Tree, now: Tree, top: bool, below: set<nat>, k: nat, f: Found)
    requires Bare(now) == Settled(d, top, below)
    requires f.Below? && f.i == k ==> f.j < |now.sub|
    ensures Bare(AfterAt(now, k, f)) ==
            Settled(d, top || f == Top(k), below + if f.Below? && f.i == k then {f.j} else {})
  {
    if f == Top(k) {
      BareHitTop(now);
      SettledKeepsEffective(d, top, below);
    } else if f.Below? && f.i == k {
      BareHitBelow(now, f.j);
      HitSettled(d, top, below, f.j);
    } else {
      BareMarkFirst(now, |now.sub|);
    }
  }

  predicate SameName(t: Tree, t': Tree) {
    t.name == t'.name && t.alias == t'.alias
  }

  predicate SameNames(devs: seq<Tree>, devs': seq<Tree>) {
    && |devs| == |devs'|
    && forall k :: 0 <= k < |devs| ==>
         && SameName(devs[k], devs'[k]) && |devs[k].sub| == |devs'[k].sub|
         && forall j :: 0 <= j < |devs[k].sub| ==> SameName(devs[k].sub[j], devs'[k].sub[j])
  }

  lemma {:induction false} FirstSubByName(sub: seq<Tree>, sub': seq<Tree>, search: string, j: nat)
    requires |sub| == |sub'| && forall l :: 0 <= l < |sub| ==> SameName(sub[l], sub'[l])
    ensures FirstSub(sub, search, j) == FirstSub(sub', search, j)
    decreases |sub| - j
  {
    if j < |sub| { FirstSubByName(sub, sub', search, j + 1); }
  }

  lemma {:induction false} LocateByName(devs: seq<Tree>, devs': seq<Tree>, search: string, i: nat)
    requires SameNames(devs, devs')
    ensures LocateFrom(devs, search, i) == LocateFrom(devs', search, i)
    decreases |devs| - i
  {
    if i < |devs| {
      FirstSubByName(devs[i].sub, devs'[i].sub, search, 0);
      LocateByName(devs, devs', search, i + 1);
    }
  }

  lemma {:induction false} SettledNames(d: Tree, now: Tree, top: bool, below: set<nat>)
    requires Bare(now) == Settled(Bare(d), top, below)
    ensures SameName(d, now) && |d.sub| == |now.sub|
    ensures forall j :: 0 <= j < |d.sub| ==> SameName(d.sub[j], now.sub[j])
  {
    var s := Settled(Bare(d), top, below);
    forall j | 0 <= j < |d.sub| ensures SameName(d.sub[j], now.sub[j]) {
      assert Bare(d).sub[j] == Bare(d.sub[j]) && Bare(now).sub[j] == Bare(now.sub[j]);
      assert SameName(s.sub[j], Bare(d).sub[j]);
    }
  }

  lemma {:induction false} ReachedStep(devs: seq<Tree>, lookups: seq<string>, last: string, k: nat)
    ensures var f, all := Locate(devs, last), lookups + [last];
            && TopReached(devs, all, k) == (TopReached(devs, lookups, k) || f == Top(k))
            && BelowReached(devs, all, k) ==
               BelowReached(devs, lookups, k) + if f.Below? && f.i == k then {f.j} else {}
  {
    var f, all := Locate(devs, last), lookups + [last];
    assert forall l :: 0 <= l < |lookups| ==> all[l] == lookups[l];
    assert all[|lookups|] == last;
    forall j ensures j in BelowReached(devs, all, k) <==>
                     j in BelowReached(devs, lookups, k) + (if f.Below? && f.i == k then {f.j} else {}) {
      if j in BelowReached(devs, lookups, k) {
        var l :| 0 <= l < |lookups| && Locate(devs, lookups[l]) == Below(k, j);
        assert Locate(devs, all[l]) == Below(k, j);
      }
    }
    if TopReached(devs, lookups, k) {
      var l :| 0 <= l < |lookups| && Locate(devs, lookups[l]) == Top(k);
      assert Locate(devs, all[l]) == Top(k);
    }
  }

  /** After any run of lookups the images of the whole tree are settled by which devices and which children
      were reached, and every further lookup still reaches the same one. */
  lemma {:induction false} RunSettled(devs: seq<Tree>, lookups: seq<string>)
    ensures forall k :: 0 <= k < |devs| ==>
              Bare(Run(devs, lookups)[k]) ==
              Settled(Bare(devs[k]), TopReached(devs, lookups, k), BelowReached(devs, lookups, k))
    ensures forall device :: Locate(Run(devs, lookups), device) == Locate(devs, device)
    decreases |lookups|
  {
    var now := Run(devs, lookups);
    if lookups == [] {
      forall k | 0 <= k < |devs| ensures Settled(Bare(devs[k]), false, {}) == Bare(devs[k]) {
        assert Settled(Bare(devs[k]), false, {}).sub == Bare(devs[k]).sub;
      }
    } else {
      var front, last := lookups[..|lookups| - 1], lookups[|lookups| - 1];
      RunSettled(devs, front);
      assert lookups == front + [last];
      forall k | 0 <= k < |devs|
        ensures Bare(now[k]) == Settled(Bare(devs[k]), TopReached(devs, lookups, k), BelowReached(devs, lookups, k))
      {
        ReachedStep(devs, front, last, k);
        SettledStep(Bare(devs[k]), Run(devs, front)[k], TopReached(devs, front, k), BelowReached(devs, front, k), k,
                    Locate(devs, last));
      }
    }
    forall k | 0 <= k < |devs| {
      SettledNames(devs[k], now[k], TopReached(devs, lookups, k), BelowReached(devs, lookups, k));
    }
    forall device ensures Locate(now, device) == Locate(devs, device) {
      LocateByName(now, devs, ToLower(device), 0);
    }
  }

  /** Order and repetition of the lookups do not matter. */
  lemma {:induction false} RunsAgree(devs: seq<Tree>, lookups: seq<string>, lookups': seq<string>, k: nat)
    requires k < |devs|
    requires forall x :: x in lookups <==> x in lookups'
    ensures Bare(Run(devs, lookups)[k]) == Bare(Run(devs, lookups')[k])
  {
    RunSettled(devs, lookups);
    RunSettled(devs, lookups');
    ReachedAgree(devs, lookups, lookups', k);
    ReachedAgree(devs, lookups', lookups, k);
  }

  lemma {:induction false} ReachedAgree(devs: seq<Tree>, lookups: seq<string>, lookups': seq<string>, k: nat)
    requires forall x :: x in lookups ==> x in lookups'
    ensures TopReached(devs, lookups, k) ==> TopReached(devs, lookups', k)
    ensures BelowReached(devs, lookups, k) <= BelowReached(devs, lookups', k)
  {
    forall l | 0 <= l < |lookups|
      ensures exists l' :: 0 <= l' < |lookups'| && Locate(devs, lookups'[l']) == Locate(devs, lookups[l])
    {
      assert lookups[l] in lookups';
      var l' :| 0 <= l' < |lookups'| && lookups'[l'] == lookups[l];
      assert Locate(devs, lookups'[l']) == Locate(devs, lookups[l]);
    }
  }

  // ----- what the caller sees -----

  lemma {:induction false} EffectiveAt(t: Tree, inherited: seq<DeviceImage>, p: seq<nat>)
    requires HasPath(t, p)
    ensures HasPath(Effective(Bare(t), inherited), p)
    ensures At(Effective(Bare(t), inherited), p).images == Inherited(t, p, inherited)
    decreases |p|
  {
    if p != [] {
      EffectiveAt(t.sub[p[0]], Own(t, inherited), p[1..]);
    }
  }

  lemma {:induction false} EffectivePaths(t: Tree, inherited: seq<DeviceImage>, p: seq<nat>)
    ensures HasPath(Effective(Bare(t), inherited), p) <==> HasPath(t, p)
    decreases |p|
  {
    if p != [] && p[0] < |t.sub| {
      EffectivePaths(t.sub[p[0]], Own(t, inherited), p[1..]);
    }
  }

  /** Over any run of lookups the effective images of every node, at every depth, stay what they were,
      although each lookup writes to shared nodes. */
  lemma {:induction false} EffectiveImagesNeverChange(devs: seq<Tree>, lookups: seq<string>, k: nat, p: seq<nat>)
    requires k < |devs|
    ensures HasPath(Run(devs, lookups)[k], p) <==> HasPath(devs[k], p)
    ensures HasPath(devs[k], p) ==> Nearest(Run(devs, lookups)[k], p) == Nearest(devs[k], p)
  {
    var now := Run(devs, lookups);
    RunSettled(devs, lookups);
    SettledKeepsEffective(Bare(devs[k]), TopReached(devs, lookups, k), BelowReached(devs, lookups, k));
    EffectivePaths(devs[k], [], p);
    EffectivePaths(now[k], [], p);
    if HasPath(devs[k], p) {
      EffectiveAt(devs[k], [], p);
      EffectiveAt(now[k], [], p);
      InheritedIsNearest(devs[k], p);
      InheritedIsNearest(now[k], p);
    }
  }

  /** A device itself is returned with the same images at every depth whatever was looked up before, and a
      child with the same images of its own. */
  lemma {:induction false} ReturnedImagesIndependent(devs: seq<Tree>, lookups: seq<string>, device: string)
    requires !Locate(devs, device).NoDevice?
    ensures Locate(Run(devs, lookups), device) == Locate(devs, device)
    ensures Locate(devs, device).Top? ==> Bare(Returned(Run(devs, lookups), device)) == Bare(Returned(devs, device))
    ensures Returned(Run(devs, lookups), device).images == Returned(devs, device).images
  {
    var f, now := Locate(devs, device), Run(devs, lookups);
    RunSettled(devs, lookups);
    if f.Top? {
      var d := devs[f.i].(dir := devs[f.i].name, typ := devs[f.i].name);
      var d' := now[f.i].(dir := now[f.i].name, typ := now[f.i].name);
      BareFill(d);
      BareFill(d');
      assert Bare(d).sub == Bare(devs[f.i]).sub && Bare(d').sub == Bare(now[f.i]).sub;
      SettledKeepsEffective(Bare(devs[f.i]), TopReached(devs, lookups, f.i), BelowReached(devs, lookups, f.i));
    } else {
      ReturnedChild(devs, [], device);
      ReturnedChild(devs, lookups, device);
    }
  }

  lemma {:induction false} ReturnedChild(devs: seq<Tree>, lookups: seq<string>, device: string)
    requires Locate(devs, device).Below?
    ensures Locate(Run(devs, lookups), device) == Locate(devs, device)
    ensures var f := Locate(devs, device);
            var d := Bare(devs[f.i]);
            Bare(Returned(Run(devs, lookups), device)) ==
            if d.images != [] && TopReached(devs, lookups, f.i) then Effective(d.sub[f.j], d.images)
            else d.sub[f.j].(images := Own(d.sub[f.j], d.images))
  {
    var f, all := Locate(devs, device), lookups + [device];
    RunSettled(devs, lookups);
    RunSettled(devs, all);
    assert all[..|all| - 1] == lookups;
    ReachedStep(devs, lookups, device, f.i);
    var now := Run(devs, all)[f.i];
    assert Bare(now).sub[f.j] == Bare(now.sub[f.j]);
    var d := Bare(devs[f.i]);
    var c := d.sub[f.j];
    assert c == Tree(c.name, c.alias, c.images, c.typ, c.dir, c.image, c.sub);
  }

  lemma {:induction false} BareAt(t: Tree, p: seq<nat>)
    requires HasPath(t, p)
    ensures HasPath(Bare(t), p) && At(Bare(t), p).images == At(t, p).images
    decreases |p|
  {
    if p != [] { BareAt(t.sub[p[0]], p[1..]); }
  }

  /** Below a child that was looked up, earlier lookups do show: a deeper node has its effective images if
      its device itself was looked up before, and only its own otherwise. So when it has none of its own,
      selecting an image there works exactly when the device was looked up before. */
  lemma {:induction false} DeeperImagesDependOnHistory(devs: seq<Tree>, lookups: seq<string>, device: string, p: seq<nat>)
    requires Locate(devs, device).Below? && p != []
    requires var f := Locate(devs, device); devs[f.i].images != [] && HasPath(devs[f.i].sub[f.j], p)
    ensures Locate(Run(devs, lookups), device) == Locate(devs, device)
    ensures var f, r := Locate(devs, device), Bare(Returned(Run(devs, lookups), device));
            && HasPath(r, p) && HasPath(devs[f.i], [f.j] + p)
            && At(r, p).images ==
               (if TopReached(devs, lookups, f.i) then Nearest(devs[f.i], [f.j] + p)
                else At(devs[f.i].sub[f.j], p).images)
            && (At(devs[f.i].sub[f.j], p).images == [] ==> (At(r, p).images != [] <==> TopReached(devs, lookups, f.i)))
  {
    var f := Locate(devs, device);
    var d, c := devs[f.i], devs[f.i].sub[f.j];
    ReturnedChild(devs, lookups, device);
    assert ([f.j] + p)[1..] == p;
    InheritedIsNearest(d, [f.j] + p);
    NearestOfRoot(d, [f.j] + p);
    if TopReached(devs, lookups, f.i) {
      EffectiveAt(c, d.images, p);
    } else {
      BareAt(c, p);
    }
  }

  /** A device with images, looked up after any run: whatever leaf the menus lead to, it has images, namely
      those of its nearest originally non-empty ancestor-or-self. */
  lemma {:induction false} EveryLeafHasImages(devs: seq<Tree>, lookups: seq<string>, device: string, p: seq<nat>)
    requires Locate(devs, device).Top? && devs[Locate(devs, device).i].images != []
    requires HasPath(devs[Locate(devs, device).i], p)
    ensures Locate(Run(devs, lookups), device) == Locate(devs, device)
    ensures var d, r := devs[Locate(devs, device).i], Returned(Run(devs, lookups), device);
            HasPath(r, p) && At(r, p).images == Nearest(d, p) && Nearest(d, p) != []
  {
    var f, now := Locate(devs, device), Run(devs, lookups);
    ReturnedImagesIndependent(devs, lookups, device);
    EffectiveImagesNeverChange(devs, lookups, f.i, p);
    RunSettled(devs, lookups);
    var d' := now[f.i].(dir := now[f.i].name, typ := now[f.i].name);
    OwnerNotOnPath(now[f.i], d', p);
    FillAt(d', p);
    NearestOfRoot(devs[f.i], p);
  }

  lemma {:induction false} OwnerNotOnPath(t: Tree, t': Tree, p: seq<nat>)
    requires t.images == t'.images && t.sub == t'.sub
    ensures HasPath(t, p) <==> HasPath(t', p)
    ensures HasPath(t, p) ==> Nearest(t, p) == Nearest(t', p)
  {
    if HasPath(t, p) {
      InheritedIsNearest(t, p);
      InheritedIsNearest(t', p);
    }
  }

  /** Looking a device up again by the name found, on the tree that the first lookup left behind. */
  lemma {:induction false} NewThenGetFlasher(devs: seq<Tree>, lookups: seq<string>, device: string)
    requires !Locate(devs, device).NoDevice?
    ensures var f, now := Locate(devs, device), Run(devs, lookups + [device]);
            && IsEntry(now, f) && Entry(now, f).name == Entry(devs, f).name
            && Locate(now, Entry(now, f).name) == Locate(devs, Entry(devs, f).name)
  {
    var f, all := Locate(devs, device), lookups + [device];
    RunSettled(devs, all);
    SettledNames(devs[f.i], Run(devs, all)[f.i], TopReached(devs, all, f.i), BelowReached(devs, all, f.i));
  }
}
