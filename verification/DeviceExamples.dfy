/** A family of boards with a model in between, for which the order of lookups and the name asked for matter. */
module DeviceExamples {
  import opened DeviceTree
  import opened DeviceLookups
  import opened DeviceSelection

  function Board(name: string, images: seq<DeviceImage>, sub: seq<Tree>): Tree {
    Tree(name, "", images, "", "", NO_IMAGE, sub)
  }

  /** Only the family itself has images. */
  function Boards(family: string, model: string, variant: string, image: DeviceImage): seq<Tree> {
    [Board(family, [image], [Board(model, [], [Board(variant, [], [])])])]
  }

  predicate TellApart(family: string, model: string) {
    family != "" && model != "" && ToLower(family) != ToLower(model)
  }

  lemma {:induction false} Reached(family: string, model: string, variant: string, image: DeviceImage)
    requires TellApart(family, model)
    ensures var devs := Boards(family, model, variant, image);
            Locate(devs, family) == Top(0) && Locate(devs, model) == Below(0, 0)
  {
    var devs := Boards(family, model, variant, image);
    assert FirstSub(devs[0].sub, ToLower(model), 0) == 0;
  }

  lemma {:induction false} VariantPath(family: string, model: string, variant: string, image: DeviceImage)
    ensures var d := Boards(family, model, variant, image)[0];
            && HasPath(d.sub[0], [0]) && At(d.sub[0], [0]) == Board(variant, [], [])
            && HasPath(d, [0, 0]) && Nearest(d, [0, 0]) == [image]
  {
    var d := Boards(family, model, variant, image)[0];
    AtChild(d.sub[0], 0);
    assert [0, 0][1..] == [0];
    InheritedIsNearest(d, [0, 0]);
    assert Inherited(d.sub[0], [0], [image]) == [image];
  }

  /** Looked up first thing, the model has no images to offer. After a lookup of the family it has. */
  lemma {:induction false} VariantDependsOnHistory(family: string, model: string, variant: string, image: DeviceImage)
    requires TellApart(family, model)
    ensures var devs := Boards(family, model, variant, image);
            && Locate(devs, model) == Below(0, 0) && Locate(Run(devs, [family]), model) == Below(0, 0)
            && HasPath(Returned(devs, model), [0]) && HasPath(Returned(Run(devs, [family]), model), [0])
            && At(Returned(devs, model), [0]).images == []
            && At(Returned(Run(devs, [family]), model), [0]).images == [image]
  {
    var devs := Boards(family, model, variant, image);
    Reached(family, model, variant, image);
    VariantPath(family, model, variant, image);
    assert [0] + [0] == [0, 0];
    assert [family][0] == family && TopReached(devs, [family], 0);
    BareImages(devs, [], model);
    BareImages(devs, [family], model);
  }

  /** The variant as a lookup of the model returns it. */
  lemma {:induction false} VariantReturned(family: string, model: string, variant: string, image: DeviceImage,
                                           lookups: seq<string>)
    requires TellApart(family, model) && lookups in {[], [family]}
    ensures var devs := Boards(family, model, variant, image);
            var now := Run(devs, lookups);
            && Locate(now, model) == Below(0, 0) && Returned(now, model).image == NO_IMAGE
            && LeafOf(Returned(now, model), [0]) && At(Returned(now, model), [0]).typ == ""
            && At(Returned(now, model), [0]).images == if lookups == [] then [] else [image]
  {
    var devs := Boards(family, model, variant, image);
    VariantDependsOnHistory(family, model, variant, image);
    VariantPath(family, model, variant, image);
    TypeInModel(devs, lookups, model, [0]);
    var r := ReturnedModel(devs, lookups, model);
  }

  /** Asked for by the name of the model, the program stops with an empty repository, or, after a lookup of the
      family, takes the default flasher of that name instead of the one of the family. */
  lemma {:induction false} FamilyLost(family: string, model: string, variant: string, image: DeviceImage)
    requires TellApart(family, model)
    ensures var devs := Boards(family, model, variant, image);
            && Answered(devs, model, "", EmptyRepository)
            && Answered(Run(devs, [family]), model, "", Ready(FlasherFor(model), image))
  {
    var devs := Boards(family, model, variant, image);
    VariantReturned(family, model, variant, image, []);
    VariantReturned(family, model, variant, image, [family]);
    MenuAnswers(Returned(devs, model), model, Empty);
    MenuAnswers(Returned(Run(devs, [family]), model), model, Chosen(image, ""));
  }

  /** For example, a Raspberry Pi with the image asked for is flashed as one. */
  lemma {:induction false} LiteRaspberryPi(image: DeviceImage, outcome: Outcome)
    requires image.alias == "lite" && image.url != ""
    requires Answered([Board("Raspberry Pi", [image], [])], "Raspberry Pi", "lite", outcome)
    ensures outcome == Ready(RaspberryPi, image)
  {
    var devs := [Board("Raspberry Pi", [image], [])];
    assert Locate(devs, "Raspberry Pi") == Top(0);
    var r := Returned(devs, "Raspberry Pi");
    assert r.images == [image] && r.typ == "Raspberry Pi";
    assert ToLower("lite") == "lite";
    assert [image][0] in [image] && ImageMatches(image, "lite");
    var choice :| ChoiceMade(r, "lite", choice) && outcome == OutcomeOf(choice, "Raspberry Pi");
    assert forall o :: Wanted(r, "lite", o) ==> o == image;
  }

  lemma {:induction false} MenuAnswers(t: Tree, device: string, choice: Choice)
    requires t.image == NO_IMAGE && SelectedAt(t, [0], choice)
    ensures Resolved(t, device, "", OutcomeOf(choice, device))
  {
    assert Wanted(t, "", NO_IMAGE);
    assert ChoiceMade(t, "", choice);
  }

  /** For example, a Zero is not flashed as a Raspberry Pi. */
  lemma {:induction false} ZeroIsNoRaspberryPi(image: DeviceImage)
    ensures var devs := Boards("Raspberry Pi", "Zero", "W", image);
            && Answered(devs, "Zero", "", EmptyRepository)
            && Answered(Run(devs, ["Raspberry Pi"]), "Zero", "", Ready(SdCard, image))
  {
    assert |ToLower("Raspberry Pi")| != |ToLower("Zero")|;
    assert FlasherFor("Zero") == SdCard;
    FamilyLost("Raspberry Pi", "Zero", "W", image);
  }

  lemma {:induction false} BareImages(devs: seq<Tree>, lookups: seq<string>, model: string)
    requires Locate(devs, model).Below?
    requires var f := Locate(devs, model); devs[f.i].images != [] && HasPath(devs[f.i].sub[f.j], [0])
    ensures Locate(Run(devs, lookups), model) == Locate(devs, model)
    ensures var f, r := Locate(devs, model), Returned(Run(devs, lookups), model);
            && HasPath(r, [0]) && HasPath(devs[f.i], [f.j] + [0])
            && At(r, [0]).images ==
               if TopReached(devs, lookups, f.i) then Nearest(devs[f.i], [f.j] + [0])
               else At(devs[f.i].sub[f.j], [0]).images
  {
    var f := Locate(devs, model);
    DeeperImagesDependOnHistory(devs, lookups, model, [0]);
    TypeInModel(devs, lookups, model, [0]);
    var r := Returned(Run(devs, lookups), model);
    BarePath(r, [0]);
    BareAt(r, [0]);
  }

  lemma {:induction false} BarePath(t: Tree, p: seq<nat>)
    ensures HasPath(Bare(t), p) <==> HasPath(t, p)
    decreases |p|
  {
    if p != [] && p[0] < |t.sub| {
      BarePath(t.sub[p[0]], p[1..]);
    }
  }
}
