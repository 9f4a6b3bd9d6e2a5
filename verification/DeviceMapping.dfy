/** The device tree of `repo/mapping.go`: nodes that are shared and updated in place. */
module DeviceMapping {
  import opened DeviceTree
  import opened DeviceNames

  /** A node of the tree. Name, alias and children are fixed when the repository file is decoded; the rest
      is assigned through shared pointers later on. Decoding builds every node once, so the nodes below
      two children of one node are disjoint. */
  class Device {
    const Name: string
    const Alias: string
    const Sub: seq<Device>
    var Images: seq<DeviceImage>
    var Type: string
    var dir: string
    var Image: DeviceImage
    ghost const repr: set<Device>

    ghost predicate Valid()
      decreases repr
    {
      && this in repr
      && (forall i :: 0 <= i < |Sub| ==> Sub[i].repr <= repr - {this} && Sub[i].Valid())
      && (forall i, j :: 0 <= i < j < |Sub| ==> Sub[i].repr !! Sub[j].repr)
    }

    /** The tree below this node as a value. */
    ghost function View(): (t: Tree)
      requires Valid()
      reads repr
      ensures t.name == Name && t.alias == Alias && |t.sub| == |Sub|
      ensures t.images == Images && t.typ == Type && t.dir == dir && t.image == Image
      decreases repr
    {
      Tree(Name, Alias, Images, Type, dir, Image,
           seq(|Sub|, i requires 0 <= i < |Sub| reads repr => Sub[i].View()))
    }

    /** A node as it is decoded from the repository file, above children decoded before it. */
    constructor (name: string, alias: string, sub: seq<Device>, images: seq<DeviceImage>, typ: string, image: DeviceImage)
      requires forall i :: 0 <= i < |sub| ==> sub[i].Valid()
      requires forall i, j :: 0 <= i < j < |sub| ==> sub[i].repr !! sub[j].repr
      ensures Valid() && fresh(this) && forall i :: 0 <= i < |sub| ==> sub[i].repr <= repr
      ensures Name == name && Alias == alias && Sub == sub
      ensures Images == images && Type == typ && dir == "" && Image == image
    {
      Name, Alias, Sub := name, alias, sub;
      Images, Type, dir, Image := images, typ, "", image;
      repr := {this} + set i, n | 0 <= i < |sub| && n in sub[i].repr :: n;
    }

    /** The loop variable of a range over device values: the fields are copied, the children shared. */
    constructor CopyOf(d: Device)
      requires d.Valid()
      ensures Valid() && fresh(this)
      ensures Name == d.Name && Alias == d.Alias && Sub == d.Sub
      ensures Images == d.Images && Type == d.Type && dir == d.dir && Image == d.Image
      ensures repr == d.repr - {d} + {this}
      ensures View() == d.View()
    {
      Name, Alias, Sub := d.Name, d.Alias, d.Sub;
      Images, Type, dir, Image := d.Images, d.Type, d.dir, d.Image;
      repr := d.repr - {d} + {this};
    }

    method SetOwner(owner: string)
      requires Valid()
      modifies this`dir, this`Type
      ensures View() == old(View()).(dir := owner, typ := owner)
    {
      ghost var before := View();
      dir := owner;
      Type := owner;
      assert View().sub == before.sub;
    }

    method InheritImages(images: seq<DeviceImage>)
      requires Valid()
      modifies this`Images
      ensures View() == if old(Images) == [] then old(View()).(images := images) else old(View())
    {
      ghost var before := View();
      if |Images| == 0 {
        Images := images;
      }
      assert View().sub == before.sub;
    }

    /** The first image with that title or alias becomes the chosen one. */
    method FindImage(image: string) returns (found: bool)
      requires Valid()
      modifies this`Image
      ensures found <==> exists o :: o in Images && (ToLower(o.title) == ToLower(image) || o.alias == ToLower(image))
      ensures found ==> exists k :: 0 <= k < |Images| && Image == Images[k] && ImageMatches(Images[k], image) &&
                                    forall l :: 0 <= l < k ==> !ImageMatches(Images[l], image)
      ensures !found ==> Image == old(Image)
      ensures View() == old(View()).(image := Image)
    {
      ghost var before := View();
      for i := 0 to |Images|
        invariant Image == old(Image) && View() == before
        invariant forall l :: 0 <= l < i ==> !ImageMatches(Images[l], image)
      {
        if ImageMatches(Images[i], image) {
          Image := Images[i];
          assert View().sub == before.sub;
          return true;
        }
      }
      return false;
    }
  }

  /** fillEmptyImages: pass a node's images down to every child without any, at every depth. */
  method FillEmptyImages(m: Device)
    requires m.Valid()
    modifies m.repr - {m}
    ensures m.View() == Fill(old(m.View()))
    decreases m.repr, 0
  {
    if |m.Images| != 0 {
      ghost var before := m.View();
      for i := 0 to |m.Sub|
        invariant forall j :: 0 <= j < i ==> m.Sub[j].View() == FillChild(before.sub[j], m.Name, m.Images)
        invariant forall j :: i <= j < |m.Sub| ==> m.Sub[j].View() == before.sub[j]
      {
        FillBelow(m.Sub[i], m.Name, m.Images);
      }
    }
  }

  /** The body of the loop above: one child, then everything below it. */
  method FillBelow(dm: Device, parent: string, images: seq<DeviceImage>)
    requires dm.Valid() && images != []
    modifies dm.repr
    ensures dm.View() == FillChild(old(dm.View()), parent, images)
    decreases dm.repr, 1
  {
    ghost var before := dm.View();
    dm.dir := parent;
    if |dm.Images| == 0 {
      dm.Images := images;
    }
    assert dm.View().sub == before.sub;
    FillEmptyImages(dm);
  }

  /** Is that the alias of the node, or its name in any case? */
  predicate Carries(d: Device, device: string) {
    d.Alias == ToLower(device) || ToLower(d.Name) == ToLower(device)
  }

  class DeviceCollection {
    const Devices: seq<Device>

    ghost predicate Valid() {
      && (forall i :: 0 <= i < |Devices| ==> Devices[i].Valid())
      && (forall i, j :: 0 <= i < j < |Devices| ==> Devices[i].repr !! Devices[j].repr)
    }

    ghost function Nodes(): set<Device> {
      set i, n | 0 <= i < |Devices| && n in Devices[i].repr :: n
    }

    ghost function Views(): (ts: seq<Tree>)
      requires Valid()
      reads Nodes()
    {
      seq(|Devices|, i requires 0 <= i < |Devices| reads Nodes() => Devices[i].View())
    }

    constructor (devices: seq<Device>)
      ensures Devices == devices
    {
      Devices := devices;
    }

    /** Neither a device nor one of its children carries that name or alias. */
    predicate NoneCarries(device: string) {
      forall i :: 0 <= i < |Devices| ==>
        && !Carries(Devices[i], device)
        && forall j :: 0 <= j < |Devices[i].Sub| ==> !Carries(Devices[i].Sub[j], device)
    }

    lemma {:induction false} NoneCarriesInViews(device: string)
      requires Valid()
      ensures NoneCarries(device) <==> Locate(Views(), device).NoDevice?
    {
      var devs := Views();
      NothingReached(devs, device);
      forall i | 0 <= i < |Devices|
        ensures devs[i].name == Devices[i].Name && devs[i].alias == Devices[i].Alias
        ensures |devs[i].sub| == |Devices[i].Sub|
        ensures forall j :: 0 <= j < |Devices[i].Sub| ==>
                  devs[i].sub[j].name == Devices[i].Sub[j].Name && devs[i].sub[j].alias == Devices[i].Sub[j].Alias
      {
        assert devs[i] == Devices[i].View();
      }
    }

    /** findDevice: every lookup writes through the shared children it scans. */
    method FindDevice(device: string) returns (found: Device?)
      requires Valid()
      modifies Nodes()
      ensures Views() == After(old(Views()), device)
      ensures match Locate(old(Views()), device)
              case NoDevice => found == null
              case Top(i) => found != null && fresh(found) && found.Sub == Devices[i].Sub
              case Below(i, j) => found == Devices[i].Sub[j]
      ensures found == null <==> NoneCarries(device)
      ensures found != null ==>
                found.Valid() && found.repr <= Nodes() + {found} && found.View() == Returned(old(Views()), device)
    {
      var search := ToLower(device);
      ghost var before := Views();
      ScannedNone(before);
      NoneCarriesInViews(device);
      for i := 0 to |Devices|
        invariant Views() == Scanned(before, i)
        invariant LocateFrom(before, search, 0) == LocateFrom(before, search, i)
      {
        found := VisitAt(i, search);
        LookupStep(before, search, i);
        if found != null {
          return;
        }
      }
      return null;
    }

    /** One round of the loop above. */
    method VisitAt(i: nat, search: string) returns (found: Device?)
      requires Valid() && i < |Devices|
      modifies Nodes()
      ensures Views() == old(Views())[i := Visited(old(Views()[i]), search)]
      ensures match Here(old(Views()[i]), search, i)
              case NoDevice => found == null
              case Top(_) => found != null && fresh(found) && found.Valid() && found.Sub == Devices[i].Sub &&
                             found.repr <= Nodes() + {found} && found.View() == TopResult(old(Views()[i]))
              case Below(_, j) => found == Devices[i].Sub[j]
    {
      ghost var before := Views();
      assert forall n :: n in Devices[i].repr ==> n in Nodes();
      found := Visit(Devices[i], search);
      assert Views() == before[i := Devices[i].View()];
    }
  }

  lemma SharedChildren(d: Device, obj: Device)
    requires d.Valid() && obj.Valid() && d.Sub == obj.Sub
    ensures d.View().sub == obj.View().sub
  {
  }

  /** Copy one device, then look at the copy and at the children it shares. */
  method Visit(d: Device, search: string) returns (found: Device?)
    requires d.Valid()
    modifies d.repr - {d}
    ensures d.View() == Visited(old(d.View()), search)
    ensures match Here(old(d.View()), search, 0)
            case NoDevice => found == null
            case Top(_) => found != null && fresh(found) && found.Valid() && found.Sub == d.Sub &&
                           found.repr <= d.repr + {found} && found.View() == TopResult(old(d.View()))
            case Below(_, j) => found == d.Sub[j]
  {
    var obj := new Device.CopyOf(d);
    obj.SetOwner(obj.Name);
    OwnerIrrelevant(d.View(), obj.View());
    if ToLower(obj.Name) == search || obj.Alias == search {
      FillEmptyImages(obj);
      SharedChildren(d, obj);
      return obj;
    }
    found := null;
    if |obj.Sub| > 0 {
      found := ScanSubs(obj, search);
    }
    SharedChildren(d, obj);
    MarkNone(obj.View());
  }

  method MarkChild(obj: Device, j: nat)
    requires obj.Valid() && j < |obj.Sub|
    modifies obj.repr - {obj}
    ensures obj.View() == MarkAt(old(obj.View()), j)
  {
    ghost var before := obj.View();
    var sub := obj.Sub[j];
    sub.SetOwner(obj.Name);
    assert obj.View().sub == before.sub[j := sub.View()];
  }

  method InheritIntoChild(obj: Device, j: nat)
    requires obj.Valid() && j < |obj.Sub|
    modifies obj.repr - {obj}
    ensures obj.View() == InheritAt(old(obj.View()), j)
  {
    ghost var before := obj.View();
    var sub := obj.Sub[j];
    sub.InheritImages(obj.Images);
    assert obj.View().sub == before.sub[j := sub.View()];
  }

  /** The inner loop of findDevice: mark the children up to the one searched for, which inherits the
      images of its device when it has none. */
  method ScanSubs(obj: Device, search: string) returns (found: Device?)
    requires obj.Valid()
    modifies obj.repr - {obj}
    ensures var before, k := old(obj.View()), FirstSub(old(obj.View()).sub, search, 0);
            if k < |obj.Sub| then found == obj.Sub[k] && obj.View() == HitBelow(before, k)
            else found == null && obj.View() == MarkFirst(before, |obj.Sub|)
  {
    ghost var before := obj.View();
    MarkNone(before);
    for j := 0 to |obj.Sub|
      invariant obj.View() == MarkFirst(before, j)
      invariant FirstSub(before.sub, search, 0) == FirstSub(before.sub, search, j)
    {
      MarkChild(obj, j);
      MarkOneMore(before, j);
      if ToLower(obj.Sub[j].Name) == search || obj.Sub[j].Alias == search {
        InheritIntoChild(obj, j);
        return obj.Sub[j];
      }
    }
    return null;
  }
}
