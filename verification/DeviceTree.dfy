/** The device tree of `repo/mapping.go` as a value, and what a lookup does to it. */
module DeviceTree {

  datatype DeviceImage = DeviceImage(url: string, alias: string, title: string, user: string, pass: string, hash: string)

  datatype Tree = Tree(name: string, alias: string, images: seq<DeviceImage>, typ: string, dir: string,
                       image: DeviceImage, sub: seq<Tree>)

  function LowerChar(c: char): char {
    if 'A' <= c <= 'Z' then c + ('a' - 'A') else c
  }

  function ToLower(s: string): string {
    seq(|s|, i requires 0 <= i < |s| => LowerChar(s[i]))
  }

  predicate ImageMatches(o: DeviceImage, image: string) {
    ToLower(o.title) == ToLower(image) || o.alias == ToLower(image)
  }

  // ----- fillEmptyImages -----

  /** A child and everything below it, under a parent of that name whose images are not empty. */
  function FillChild(t: Tree, parent: string, images: seq<DeviceImage>): Tree
    decreases t
  {
    var own := if t.images == [] then images else t.images;
    t.(dir := parent, images := own,
       sub := seq(|t.sub|, i requires 0 <= i < |t.sub| => FillChild(t.sub[i], t.name, own)))
  }

  function Fill(t: Tree): Tree {
    if t.images == [] then t
    else t.(sub := seq(|t.sub|, i requires 0 <= i < |t.sub| => FillChild(t.sub[i], t.name, t.images)))
  }

  // ----- findDevice -----

  predicate Matches(t: Tree, search: string) {
    ToLower(t.name) == search || t.alias == search
  }

  /** The first child from `j` on that matches, or the number of children. */
  function FirstSub(sub: seq<Tree>, search: string, j: nat): (k: nat)
    ensures j <= |sub| ==> j <= k <= |sub|
    ensures k < |sub| ==> Matches(sub[k], search)
    ensures j <= |sub| ==> forall l :: j <= l < k ==> !Matches(sub[l], search)
    decreases |sub| - j
  {
    if j >= |sub| then |sub| else if Matches(sub[j], search) then j else FirstSub(sub, search, j + 1)
  }

  datatype Found = NoDevice | Top(i: nat) | Below(i: nat, j: nat)

  /** What one device offers to a lookup: itself, or its first matching child, at index `i`. */
  function Here(d: Tree, search: string, i: nat): Found {
    if Matches(d, search) then Top(i)
    else
      var j := FirstSub(d.sub, search, 0);
      if j < |d.sub| then Below(i, j) else NoDevice
  }

  function LocateFrom(devs: seq<Tree>, search: string, i: nat): (f: Found)
    ensures f.Top? ==> i <= f.i < |devs| && Matches(devs[f.i], search)
    ensures f.Below? ==> i <= f.i < |devs| && f.j < |devs[f.i].sub| && Matches(devs[f.i].sub[f.j], search)
    decreases |devs| - i
  {
    if i >= |devs| then NoDevice
    else
      var here := Here(devs[i], search, i);
      if here.NoDevice? then LocateFrom(devs, search, i + 1) else here
  }

  /** Which device a lookup reaches. */
  function Locate(devs: seq<Tree>, device: string): Found {
    LocateFrom(devs, ToLower(device), 0)
  }

  /** The first `n` children carry the directory and the type of their device. */
  function MarkFirst(d: Tree, n: nat): Tree {
    d.(sub := seq(|d.sub|, l requires 0 <= l < |d.sub| =>
                    if l < n then d.sub[l].(dir := d.name, typ := d.name) else d.sub[l]))
  }

  function MarkAt(d: Tree, j: nat): Tree
    requires j < |d.sub|
  {
    d.(sub := d.sub[j := d.sub[j].(dir := d.name, typ := d.name)])
  }

  /** Child `j` takes the images of its device when it has none. */
  function InheritAt(d: Tree, j: nat): Tree
    requires j < |d.sub|
  {
    if d.sub[j].images == [] then d.(sub := d.sub[j := d.sub[j].(images := d.images)]) else d
  }

  /** A device whose child `j` was looked up. */
  function HitBelow(d: Tree, j: nat): Tree
    requires j < |d.sub|
  {
    InheritAt(MarkFirst(d, j + 1), j)
  }

  lemma {:induction false} MarkNone(d: Tree)
    ensures MarkFirst(d, 0) == d
  {
    assert MarkFirst(d, 0).sub == d.sub;
  }

  lemma {:induction false} MarkOneMore(d: Tree, j: nat)
    requires j < |d.sub|
    ensures MarkAt(MarkFirst(d, j), j) == MarkFirst(d, j + 1)
  {
    assert MarkAt(MarkFirst(d, j), j).sub == MarkFirst(d, j + 1).sub;
  }

  /** Directory and type of the device itself do not matter to its children. */
  lemma {:induction false} OwnerIrrelevant(d: Tree, d': Tree)
    requires d.name == d'.name && d.images == d'.images && d.sub == d'.sub
    ensures Fill(d).sub == Fill(d').sub
    ensures forall n :: 0 <= n <= |d.sub| ==> MarkFirst(d, n).sub == MarkFirst(d', n).sub
    ensures forall j :: 0 <= j < |d.sub| ==> HitBelow(d, j).sub == HitBelow(d', j).sub
  {
  }

  /** A device that was looked up itself: the copy is filled, and the children are shared. */
  function HitTop(d: Tree): Tree {
    d.(sub := Fill(d).sub)
  }

  /** The copy that is returned for a device itself. */
  function TopResult(d: Tree): Tree {
    Fill(d.(dir := d.name, typ := d.name))
  }

  /** A device after the round of a lookup that visited it. */
  function Visited(d: Tree, search: string): Tree {
    match Here(d, search, 0)
    case NoDevice => MarkFirst(d, |d.sub|)
    case Top(_) => HitTop(d)
    case Below(_, j) => HitBelow(d, j)
  }

  /** Device `k` after a lookup that reached `f`. */
  function AfterAt(d: Tree, k: nat, f: Found): Tree
    requires f.Below? && f.i == k ==> f.j < |d.sub|
  {
    if f.NoDevice? || k < f.i then MarkFirst(d, |d.sub|)
    else if k > f.i then d
    else if f.Top? then HitTop(d)
    else HitBelow(d, f.j)
  }

  /** The shared tree after a lookup. */
  function After(devs: seq<Tree>, device: string): (devs': seq<Tree>)
    ensures |devs'| == |devs|
  {
    seq(|devs|, k requires 0 <= k < |devs| => AfterAt(devs[k], k, Locate(devs, device)))
  }

  /** The node a lookup returns, for a device or for one of its children. */
  function Returned(devs: seq<Tree>, device: string): Tree
    requires !Locate(devs, device).NoDevice?
  {
    var f := Locate(devs, device);
    if f.Top? then TopResult(devs[f.i]) else After(devs, device)[f.i].sub[f.j]
  }

  /** The shared tree after `n` rounds without a match. */
  function Scanned(devs: seq<Tree>, n: nat): (devs': seq<Tree>)
    ensures |devs'| == |devs|
  {
    seq(|devs|, k requires 0 <= k < |devs| => if k < n then MarkFirst(devs[k], |devs[k].sub|) else devs[k])
  }

  lemma {:induction false} ScannedNone(devs: seq<Tree>)
    ensures Scanned(devs, 0) == devs
  {
  }

  lemma {:induction false} LookupStep(devs: seq<Tree>, search: string, i: nat)
    requires i < |devs|
    requires LocateFrom(devs, search, 0) == LocateFrom(devs, search, i)
    ensures var here, next := Here(devs[i], search, i), Scanned(devs, i)[i := Visited(devs[i], search)];
            && (here.NoDevice? ==>
                  LocateFrom(devs, search, 0) == LocateFrom(devs, search, i + 1) && next == Scanned(devs, i + 1))
            && (!here.NoDevice? ==> LocateFrom(devs, search, 0) == here)
            && (!here.NoDevice? ==> forall device :: ToLower(device) == search ==> next == After(devs, device))
  {
  }
}
