/** Menu selection and the lookup part of `getFlasher` in `device/device.go`. */
module DeviceSelection {
  import opened DeviceTree
  import opened DeviceLookups
  import opened DeviceMapping

  /** The user picks any of the numbered options. */
  method SelectOneDialog(options: nat) returns (n: nat)
    requires options > 0
    ensures n < options
  {
    n :| 0 <= n < options;
  }

  /** selectDevice: menus down to a node without children. */
  method SelectDevice(mapping: Device) returns (selected: Device, ghost path: seq<nat>)
    requires mapping.Valid()
    ensures selected.Valid() && selected.repr <= mapping.repr && selected.Sub == []
    ensures HasPath(mapping.View(), path) && At(mapping.View(), path) == selected.View()
    decreases mapping.repr
  {
    var n;
    if |mapping.Sub| > 1 {
      n := SelectOneDialog(|mapping.Sub|);
    } else if |mapping.Sub| == 1 {
      n := 0;
    } else {
      return mapping, [];
    }
    ghost var rest;
    selected, rest := SelectDevice(mapping.Sub[n]);
    path := [n] + rest;
    assert path[1..] == rest;
  }

  /** selectImage: an image of the selected leaf, or null when the leaf has none. */
  method SelectImage(mapping: Device) returns (selected: Device?, ghost path: seq<nat>)
    requires mapping.Valid()
    modifies mapping.repr
    ensures HasPath(old(mapping.View()), path) && At(old(mapping.View()), path).sub == []
    ensures selected == null <==> At(old(mapping.View()), path).images == []
    ensures selected != null ==> selected in mapping.repr && selected.Sub == []
    ensures selected != null ==> selected.Images == At(old(mapping.View()), path).images
    ensures selected != null ==> selected.Type == At(old(mapping.View()), path).typ
    ensures selected != null ==> selected.Image in selected.Images
    ensures forall n :: n in mapping.repr && n != selected ==> unchanged(n)
    ensures forall n :: n in mapping.repr ==> n.Images == old(n.Images) && n.Type == old(n.Type) && n.dir == old(n.dir)
  {
    var leaf: Device;
    leaf, path := SelectDevice(mapping);
    if |leaf.Images| == 0 {
      return null, path;
    }
    var n := 0;
    if |leaf.Images| > 1 {
      n := SelectOneDialog(|leaf.Images|);
    }
    leaf.Image := leaf.Images[n];
    selected := leaf;
  }

  datatype Flasher = RaspberryPi | BeagleBone | Colibri | Edison | Serial | SdCard

  function FlasherFor(typ: string): Flasher {
    if typ == "Raspberry Pi" then RaspberryPi
    else if typ == "Beaglebone" then BeagleBone
    else if typ == "Toradex Colibri iMX6" then Colibri
    else if typ == "Intel\U{AE} Edison" then Edison
    else if typ == "Espressif ESP" then Serial
    else SdCard
  }

  /** Which flasher a family has; every other name has the one for SD cards. */
  ghost predicate MadeFor(flasher: Flasher, family: string) {
    && (flasher == RaspberryPi <==> family == "Raspberry Pi")
    && (flasher == BeagleBone <==> family == "Beaglebone")
    && (flasher == Colibri <==> family == "Toradex Colibri iMX6")
    && (flasher == Edison <==> family == "Intel\U{AE} Edison")
    && (flasher == Serial <==> family == "Espressif ESP")
  }

  /** No name has two flashers. */
  lemma {:induction false} FlasherMadeFor(family: string, flasher: Flasher)
    ensures MadeFor(flasher, family) <==> flasher == FlasherFor(family)
  {
    assert "Raspberry Pi"[0] == 'R' && "Beaglebone"[0] == 'B' && "Toradex Colibri iMX6"[0] == 'T';
    assert "Intel\U{AE} Edison"[0] == 'I' && "Espressif ESP"[0] == 'E';
  }

  ghost predicate SomeImageMatches(images: seq<DeviceImage>, image: string) {
    exists o :: o in images && ImageMatches(o, image)
  }

  ghost predicate FirstImageMatch(images: seq<DeviceImage>, image: string, o: DeviceImage) {
    exists k :: 0 <= k < |images| && o == images[k] && ImageMatches(o, image) &&
                forall l :: 0 <= l < k ==> !ImageMatches(images[l], image)
  }

  ghost predicate LeafOf(t: Tree, p: seq<nat>) {
    HasPath(t, p) && At(t, p).sub == []
  }

  /** The image a looked-up node starts with: the first one of that title or alias, or, when none is asked
      for, the one it carries already. */
  ghost predicate Wanted(t: Tree, image: string, o: DeviceImage) {
    if image == "" then o == t.image else FirstImageMatch(t.images, image, o)
  }

  /** What choosing an image comes to, with the image chosen and the type of its node. */
  datatype Choice = Unknown | Empty | Chosen(image: DeviceImage, typ: string)

  /** The choices that the menus below `t` offer at their leaf `p`. */
  ghost predicate SelectedAt(t: Tree, p: seq<nat>, choice: Choice) {
    && LeafOf(t, p)
    && if At(t, p).images == [] then choice.Empty?
       else choice.Chosen? && choice.image in At(t, p).images && choice.typ == At(t, p).typ
  }

  ghost predicate ChoiceMade(t: Tree, image: string, choice: Choice) {
    if image != "" && !SomeImageMatches(t.images, image) then choice.Unknown?
    else exists o :: Wanted(t, image, o) &&
                     if o.url != "" then choice == Chosen(o, t.typ) else exists p :: SelectedAt(t, p, choice)
  }

  /** Find the image asked for, or select one when none was asked for or the one found has no address. */
  method ChooseImage(mapping: Device, image: string) returns (choice: Choice, r: Device?)
    requires mapping.Valid()
    modifies mapping.repr
    ensures choice.Chosen? <==> r != null
    ensures r != null ==> r in mapping.repr && choice == Chosen(r.Image, r.Type)
    ensures ChoiceMade(old(mapping.View()), image, choice)
  {
    ghost var before := mapping.View();
    if |image| > 0 {
      var found := mapping.FindImage(image);
      if !found {
        return Unknown, null;
      }
    }
    ghost var searched := mapping.View();
    assert Wanted(before, image, mapping.Image);
    if |mapping.Image.url| > 0 {
      return Chosen(mapping.Image, mapping.Type), mapping;
    }
    ghost var path;
    r, path := SelectImage(mapping);
    choice := if r == null then Empty else Chosen(r.Image, r.Type);
    RootImageNotBelow(before, searched, path);
    assert SelectedAt(before, path, choice);
  }

  lemma {:induction false} RootImageNotBelow(t: Tree, t': Tree, p: seq<nat>)
    requires t' == t.(image := t'.image) && LeafOf(t', p)
    ensures LeafOf(t, p) && At(t, p).images == At(t', p).images && At(t, p).typ == At(t', p).typ
  {
  }

  datatype Outcome = NotSupported | UnknownImage | EmptyRepository | Ready(flasher: Flasher, image: DeviceImage)

  function OutcomeOf(choice: Choice, device: string): Outcome {
    match choice
    case Unknown => UnknownImage
    case Empty => EmptyRepository
    case Chosen(image, typ) => Ready(FlasherFor(if typ == "" then device else typ), image)
  }

  ghost predicate Resolved(t: Tree, device: string, image: string, outcome: Outcome) {
    exists choice :: ChoiceMade(t, image, choice) && outcome == OutcomeOf(choice, device)
  }

  /** The answers of getFlasher for a device of the repository. */
  ghost predicate Answered(devs: seq<Tree>, device: string, image: string, outcome: Outcome) {
    if Locate(devs, device).NoDevice? then outcome.NotSupported?
    else Resolved(Returned(devs, device), device, image, outcome)
  }

  /** getFlasher: look the device up, choose its image, choose the flasher by its type. */
  method GetFlasher(devices: DeviceCollection, device: string, image: string) returns (outcome: Outcome, r: Device?)
    requires devices.Valid()
    modifies devices.Nodes()
    ensures outcome.Ready? <==> r != null
    ensures r != null ==> outcome.image == r.Image && MadeFor(outcome.flasher, r.Type)
    ensures Answered(old(devices.Views()), device, image, outcome)
  {
    r := devices.FindDevice(device);
    if r == null {
      return NotSupported, null;
    }
    outcome, r := FlasherOf(r, device, image);
    if r != null {
      FlasherMadeFor(r.Type, outcome.flasher);
    }
  }

  /** What follows once the device is found. A node without a type takes the name that was asked for. */
  method FlasherOf(mapping: Device, device: string, image: string) returns (outcome: Outcome, r: Device?)
    requires mapping.Valid()
    modifies mapping.repr
    ensures !outcome.NotSupported? && (outcome.Ready? <==> r != null)
    ensures r != null ==> outcome == Ready(FlasherFor(r.Type), r.Image)
    ensures Resolved(old(mapping.View()), device, image, outcome)
  {
    var choice;
    choice, r := ChooseImage(mapping, image);
    outcome := OutcomeOf(choice, device);
    if r != null && r.Type == "" {
      r.Type := device;
    }
  }

  // ----- what the answers mean -----

  /** A leaf below `d`, reached by some menu choices, offers `image` among its effective images. */
  ghost predicate OfferedByLeaf(d: Tree, image: DeviceImage) {
    exists p :: LeafOf(d, p) && image in Nearest(d, p)
  }

  /** The leaves of the copy returned for a device with images are its leaves, with effective images. */
  lemma {:induction false} LeavesOfResult(d: Tree, p: seq<nat>)
    requires d.images != [] && LeafOf(TopResult(d), p)
    ensures LeafOf(d, p) && At(TopResult(d), p).images == Nearest(d, p) != []
  {
    var d' := d.(dir := d.name, typ := d.name);
    FillPaths(d', p);
    OwnerNotOnPath(d, d', p);
    FillAt(d', p);
    NearestOfRoot(d, p);
  }

  /** Of what is not an image list, a lookup changes nothing but the type and directory of direct children
      (and directories below). */
  predicate KeptAt(d: Tree, d': Tree, p: seq<nat>) {
    && (HasPath(d', p) <==> HasPath(d, p))
    && (HasPath(d, p) ==>
          && At(d', p).name == At(d, p).name && At(d', p).image == At(d, p).image
          && |At(d', p).sub| == |At(d, p).sub|
          && (At(d', p).typ == At(d, p).typ || (|p| == 1 && At(d', p).typ == d.name)))
  }

  lemma {:induction false} AfterKeeps(d: Tree, k: nat, f: Found, p: seq<nat>)
    requires f.Below? && f.i == k ==> f.j < |d.sub|
    ensures KeptAt(d, AfterAt(d, k, f), p)
  {
    if f == Top(k) {
      FilledKeeps(d, p);
    } else if p != [] && p[0] < |d.sub| {
      var c, c' := d.sub[p[0]], AfterAt(d, k, f).sub[p[0]];
      assert c'.sub == c.sub;
    }
  }

  lemma {:induction false} FilledKeeps(d: Tree, p: seq<nat>)
    ensures KeptAt(d, HitTop(d), p)
  {
    FillPaths(d, p);
    assert p != [] ==> (HasPath(HitTop(d), p) <==> HasPath(Fill(d), p));
    if HasPath(d, p) && d.images != [] {
      FillAt(d, p);
      assert p != [] ==> At(HitTop(d), p) == At(Fill(d), p);
    }
  }

  lemma {:induction false} RunKeeps(devs: seq<Tree>, lookups: seq<string>, k: nat, p: seq<nat>)
    requires k < |devs|
    ensures KeptAt(devs[k], Run(devs, lookups)[k], p)
    ensures Run(devs, lookups)[k].name == devs[k].name && Run(devs, lookups)[k].image == devs[k].image
    decreases |lookups|
  {
    if lookups != [] {
      var front, last := lookups[..|lookups| - 1], lookups[|lookups| - 1];
      RunKeeps(devs, front, k, p);
      AfterKeeps(Run(devs, front)[k], k, Locate(Run(devs, front), last), p);
    }
  }

  /** A device with images never ends in an empty repository, after any lookups: the image is the one asked
      for or carried by the device, if it has an address, and otherwise one that some leaf offers. */
  lemma {:induction false} NoEmptyRepository(devs: seq<Tree>, lookups: seq<string>, device: string, image: string,
                                             outcome: Outcome)
    requires Locate(devs, device).Top? && devs[Locate(devs, device).i].images != []
    requires Answered(Run(devs, lookups), device, image, outcome)
    ensures var d := devs[Locate(devs, device).i];
            if image != "" && !SomeImageMatches(d.images, image) then outcome.UnknownImage?
            else outcome.Ready? &&
                 exists o :: Wanted(d, image, o) &&
                             if o.url != "" then outcome.image == o else OfferedByLeaf(d, outcome.image)
  {
    var f, now := Locate(devs, device), Run(devs, lookups);
    RunSettled(devs, lookups);
    var d, r := devs[f.i], Returned(now, device);
    RunKeeps(devs, lookups, f.i, []);
    var choice :| ChoiceMade(r, image, choice) && outcome == OutcomeOf(choice, device);
    forall p | SelectedAt(r, p, choice) ensures choice.Chosen? && OfferedByLeaf(d, choice.image) {
      LeavesOfResult(now[f.i], p);
      EffectiveImagesNeverChange(devs, lookups, f.i, p);
      RunKeeps(devs, lookups, f.i, p);
      assert LeafOf(d, p) && choice.image in Nearest(d, p);
    }
    assert forall o :: Wanted(r, image, o) <==> Wanted(d, image, o);
  }

  /** No node of the tree names a family other than its device. */
  ghost predicate OneFamily(d: Tree) {
    forall p :: HasPath(d, p) && p != [] ==> At(d, p).typ == "" || At(d, p).typ == d.name
  }

  /** Whatever model and image is chosen below a device called by its name, after any lookups, the flasher
      is the one for that device. */
  lemma {:induction false} FamilyFlasher(devs: seq<Tree>, lookups: seq<string>, device: string, image: string,
                                         outcome: Outcome)
    requires Locate(devs, device).Top? && devs[Locate(devs, device).i].name == device
    requires OneFamily(devs[Locate(devs, device).i])
    requires Answered(Run(devs, lookups), device, image, outcome)
    ensures outcome.Ready? ==> MadeFor(outcome.flasher, device)
  {
    FamilyFlasherFor(devs, lookups, device, image, outcome);
    FlasherMadeFor(device, FlasherFor(device));
  }

  lemma {:induction false} FamilyFlasherFor(devs: seq<Tree>, lookups: seq<string>, device: string, image: string,
                                            outcome: Outcome)
    requires Locate(devs, device).Top? && devs[Locate(devs, device).i].name == device
    requires OneFamily(devs[Locate(devs, device).i])
    requires Answered(Run(devs, lookups), device, image, outcome)
    ensures outcome.Ready? ==> outcome.flasher == FlasherFor(device)
  {
    var f, now := Locate(devs, device), Run(devs, lookups);
    RunSettled(devs, lookups);
    var r := Returned(now, device);
    var choice :| ChoiceMade(r, image, choice) && outcome == OutcomeOf(choice, device);
    forall p | SelectedAt(r, p, choice) && choice.Chosen? ensures choice.typ == "" || choice.typ == device {
      TypeInResult(now[f.i], p);
      RunKeeps(devs, lookups, f.i, p);
    }
  }

  lemma {:induction false} TypeInResult(d: Tree, p: seq<nat>)
    requires HasPath(TopResult(d), p)
    ensures HasPath(d, p)
    ensures At(TopResult(d), p).typ == if p == [] then d.name else At(d, p).typ
  {
    var d' := d.(dir := d.name, typ := d.name);
    FillPaths(d', p);
    if d.images != [] { FillAt(d', p); }
  }

  /** Nothing below the node names a family. */
  ghost predicate NamesNoFamily(c: Tree) {
    forall p :: HasPath(c, p) && p != [] ==> At(c, p).typ == ""
  }

  /** Called by the name of a model, the flasher is the one for the device above it when the image comes
      from the model itself. Chosen from a node deeper down, where no family is named, the family is lost:
      the flasher is the one for the name asked for. */
  lemma {:induction false} ModelFlasher(devs: seq<Tree>, lookups: seq<string>, device: string, image: string,
                                        outcome: Outcome, o: DeviceImage)
    requires Locate(devs, device).Below? && devs[Locate(devs, device).i].name != ""
    requires Answered(Run(devs, lookups), device, image, outcome) && outcome.Ready?
    requires var f := Locate(devs, device);
             Wanted(InheritAt(devs[f.i], f.j).sub[f.j], image, o)
    ensures var d, c := devs[Locate(devs, device).i], devs[Locate(devs, device).i].sub[Locate(devs, device).j];
            if o.url != "" || c.sub == [] then MadeFor(outcome.flasher, d.name)
            else NamesNoFamily(c) ==> MadeFor(outcome.flasher, device)
  {
    ModelFlasherFor(devs, lookups, device, image, outcome, o);
    FlasherMadeFor(device, outcome.flasher);
    FlasherMadeFor(devs[Locate(devs, device).i].name, outcome.flasher);
  }

  lemma {:induction false} ModelFlasherFor(devs: seq<Tree>, lookups: seq<string>, device: string, image: string,
                                           outcome: Outcome, o: DeviceImage)
    requires Locate(devs, device).Below? && devs[Locate(devs, device).i].name != ""
    requires Answered(Run(devs, lookups), device, image, outcome) && outcome.Ready?
    requires var f := Locate(devs, device);
             Wanted(InheritAt(devs[f.i], f.j).sub[f.j], image, o)
    ensures var d, c := devs[Locate(devs, device).i], devs[Locate(devs, device).i].sub[Locate(devs, device).j];
            if o.url != "" || c.sub == [] then outcome.flasher == FlasherFor(d.name)
            else NamesNoFamily(c) ==> outcome.flasher == FlasherFor(device)
  {
    var f := Locate(devs, device);
    var r := ReturnedModel(devs, lookups, device);
    var choice :| ChoiceMade(r, image, choice) && outcome == OutcomeOf(choice, device);
    WantedDecides(r, InheritAt(devs[f.i], f.j).sub[f.j], image, o, choice);
    if o.url == "" {
      var p :| SelectedAt(r, p, choice);
      TypeInModel(devs, lookups, device, p);
    }
  }

  lemma {:induction false} WantedDecides(t: Tree, t': Tree, image: string, o: DeviceImage, choice: Choice)
    requires t.images == t'.images && t.image == t'.image && Wanted(t', image, o)
    requires ChoiceMade(t, image, choice) && choice.Chosen?
    ensures if o.url != "" then choice.typ == t.typ else exists p :: SelectedAt(t, p, choice)
  {
  }

  /** The node a lookup of a model returns: its family is set, and its images are known. */
  lemma {:induction false} ReturnedModel(devs: seq<Tree>, lookups: seq<string>, device: string) returns (r: Tree)
    requires Locate(devs, device).Below?
    ensures Locate(Run(devs, lookups), device) == Locate(devs, device) && r == Returned(Run(devs, lookups), device)
    ensures var f := Locate(devs, device);
            var c := InheritAt(devs[f.i], f.j).sub[f.j];
            r.typ == devs[f.i].name && r.images == c.images && r.image == c.image
  {
    ReturnedImagesIndependent(devs, lookups, device);
    FoundModel(devs, device);
    FoundModel(Run(devs, lookups), device);
    ModelKept(devs, lookups, Locate(devs, device).i, Locate(devs, device).j);
    r := Returned(Run(devs, lookups), device);
  }

  lemma {:induction false} FoundModel(devs: seq<Tree>, device: string)
    requires Locate(devs, device).Below?
    ensures var f, r := Locate(devs, device), Returned(devs, device);
            var c := InheritAt(devs[f.i], f.j).sub[f.j];
            r.typ == devs[f.i].name && r.images == c.images && r.image == c.image && r.sub == c.sub
  {
  }

  lemma {:induction false} ModelKept(devs: seq<Tree>, lookups: seq<string>, k: nat, j: nat)
    requires k < |devs| && j < |devs[k].sub|
    ensures var now := Run(devs, lookups)[k];
            now.name == devs[k].name && j < |now.sub| && now.sub[j].image == devs[k].sub[j].image
  {
    RunKeeps(devs, lookups, k, []);
    RunKeeps(devs, lookups, k, [j]);
    AtChild(devs[k], j);
    AtChild(Run(devs, lookups)[k], j);
  }

  lemma {:induction false} AtChild(t: Tree, j: nat)
    requires j < |t.sub|
    ensures HasPath(t, [j]) && At(t, [j]) == t.sub[j]
  {
    assert [j][1..] == [];
  }

  lemma {:induction false} TypeInModel(devs: seq<Tree>, lookups: seq<string>, device: string, p: seq<nat>)
    requires Locate(devs, device).Below? && Locate(Run(devs, lookups), device) == Locate(devs, device)
    requires HasPath(Returned(Run(devs, lookups), device), p)
    ensures var d, c := devs[Locate(devs, device).i], devs[Locate(devs, device).i].sub[Locate(devs, device).j];
            && HasPath(c, p) && |At(Returned(Run(devs, lookups), device), p).sub| == |At(c, p).sub|
            && At(Returned(Run(devs, lookups), device), p).typ == if p == [] then d.name else At(c, p).typ
  {
    var f, q := Locate(devs, device), [Locate(devs, device).j] + p;
    RunKeeps(devs, lookups, f.i, q);
    AfterKeeps(Run(devs, lookups)[f.i], f.i, f, q);
    assert q[1..] == p;
  }
}
