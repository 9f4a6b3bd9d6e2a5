/** The listing of the supported devices in `device/device.go`. */
module DeviceListing {
  import opened DeviceTree
  import opened DeviceLookups
  import opened DeviceMapping

  datatype ListItem = ListItem(title: string, alias: string, images: map<string, string>, models: seq<ListItem>)

  /** Title to alias; a later image with the same title replaces an earlier one. */
  function ByTitle(images: seq<DeviceImage>): map<string, string> {
    if images == [] then map[]
    else var last := images[|images| - 1]; ByTitle(images[..|images| - 1])[last.title := last.alias]
  }

  function Model(t: Tree): ListItem {
    ListItem(t.name, t.alias, ByTitle(t.images), [])
  }

  function Item(t: Tree): ListItem {
    if |t.sub| == 0 then Model(t)
    else ListItem(t.name, t.alias, map[], seq(|t.sub|, i requires 0 <= i < |t.sub| => Model(t.sub[i])))
  }

  function NamesOf(devs: seq<Tree>): seq<string> {
    seq(|devs|, k requires 0 <= k < |devs| => devs[k].name)
  }

  lemma {:induction false} OwnNameIsFound(devs: seq<Tree>, lookups: seq<string>, k: nat)
    requires k < |devs|
    ensures !Locate(Run(devs, lookups), devs[k].name).NoDevice?
  {
    RunSettled(devs, lookups);
    LocateIsFirst(devs, devs[k].name, NoDevice);
    assert IsEntry(devs, Top(k)) && Matches(Entry(devs, Top(k)), ToLower(devs[k].name));
  }

  method CollectImages(images: seq<DeviceImage>) returns (m: map<string, string>)
    ensures m == ByTitle(images)
  {
    m := map[];
    for i := 0 to |images|
      invariant m == ByTitle(images[..i])
    {
      assert images[..i + 1][..i] == images[..i];
      m := m[images[i].title := images[i].alias];
    }
    assert images[..|images|] == images;
  }

  /** The tree before the `k`-th round of the listing. */
  function BeforeRound(devs: seq<Tree>, k: nat): (now: seq<Tree>)
    requires k <= |devs|
  {
    Run(devs, NamesOf(devs)[..k])
  }

  /** The entry the `k`-th round adds. */
  function Listed(devs: seq<Tree>, k: nat): ListItem
    requires k < |devs|
  {
    OwnNameIsFound(devs, NamesOf(devs)[..k], k);
    Item(Returned(BeforeRound(devs, k), devs[k].name))
  }

  /** All entries, one for each device. */
  function Listing(devs: seq<Tree>): (items: seq<ListItem>)
    ensures |items| == |devs|
  {
    seq(|devs|, k requires 0 <= k < |devs| => Listed(devs, k))
  }

  lemma {:induction false} NextRound(devs: seq<Tree>, k: nat)
    requires k < |devs|
    ensures BeforeRound(devs, k + 1) == After(BeforeRound(devs, k), devs[k].name)
    ensures !Locate(BeforeRound(devs, k), devs[k].name).NoDevice?
    ensures Listing(devs)[..k + 1] == Listing(devs)[..k] + [Item(Returned(BeforeRound(devs, k), devs[k].name))]
  {
    assert NamesOf(devs)[..k + 1][..k] == NamesOf(devs)[..k];
    OwnNameIsFound(devs, NamesOf(devs)[..k], k);
  }

  /** ListMapping: look every device up by its own name, one after the other on the tree that the lookups
      before it have changed. A device always answers to its own name, so none is skipped. */
  method ListMapping(devices: DeviceCollection) returns (list: seq<ListItem>)
    requires devices.Valid()
    modifies devices.Nodes()
    ensures devices.Views() == BeforeRound(old(devices.Views()), |devices.Devices|)
    ensures list == Listing(old(devices.Views()))
  {
    ghost var devs := devices.Views();
    list := [];
    for i := 0 to |devices.Devices|
      invariant devices.Views() == BeforeRound(devs, i)
      invariant list == Listing(devs)[..i]
    {
      NextRound(devs, i);
      var item := ListDevice(devices, devices.Devices[i].Name);
      list := list + [item];
    }
  }

  /** One round of the listing. */
  method ListDevice(devices: DeviceCollection, name: string) returns (item: ListItem)
    requires devices.Valid() && !Locate(devices.Views(), name).NoDevice?
    modifies devices.Nodes()
    ensures devices.Views() == After(old(devices.Views()), name)
    ensures item == Item(Returned(old(devices.Views()), name))
  {
    var r := devices.FindDevice(name);
    item := ItemFor(r);
  }

  method ItemFor(r: Device) returns (item: ListItem)
    requires r.Valid()
    ensures item == Item(r.View())
  {
    if |r.Sub| == 0 {
      var images := CollectImages(r.Images);
      return ListItem(r.Name, r.Alias, images, []);
    }
    var models := [];
    for j := 0 to |r.Sub|
      invariant |models| == j
      invariant forall l :: 0 <= l < j ==> models[l] == Model(r.View().sub[l])
    {
      var images := CollectImages(r.Sub[j].Images);
      models := models + [ListItem(r.Sub[j].Name, r.Sub[j].Alias, images, [])];
    }
    item := ListItem(r.Name, r.Alias, map[], models);
    assert models == Item(r.View()).models;
  }

  /** A device listed under its own name is listed the same whatever was looked up before. */
  lemma {:induction false} ListingIndependent(devs: seq<Tree>, lookups: seq<string>, device: string)
    requires Locate(devs, device).Top?
    ensures Locate(Run(devs, lookups), device) == Locate(devs, device)
    ensures Item(Returned(Run(devs, lookups), device)) == Item(Returned(devs, device))
  {
    ReturnedImagesIndependent(devs, lookups, device);
    var r, r' := Returned(devs, device), Returned(Run(devs, lookups), device);
    forall i | 0 <= i < |r.sub| ensures Model(r.sub[i]) == Model(r'.sub[i]) {
      assert Bare(r).sub[i] == Bare(r.sub[i]) && Bare(r').sub[i] == Bare(r'.sub[i]);
    }
    assert Item(r).models == Item(r').models;
  }

  /** A table of titles: every title is in it, with the alias of the last image of that title. */
  ghost predicate TitleTable(images: seq<DeviceImage>, m: map<string, string>) {
    && (forall t :: t in m <==> exists i :: 0 <= i < |images| && images[i].title == t)
    && forall i :: 0 <= i < |images| && (forall j :: i < j < |images| ==> images[j].title != images[i].title) ==>
         images[i].title in m && m[images[i].title] == images[i].alias
  }

  lemma {:induction false} ByTitleIsTable(images: seq<DeviceImage>)
    ensures TitleTable(images, ByTitle(images))
  {
    if images != [] {
      var front, last := images[..|images| - 1], images[|images| - 1];
      ByTitleIsTable(front);
      var before, m := ByTitle(front), ByTitle(images);
      assert m == before[last.title := last.alias];
      forall t ensures t in m <==> exists i :: 0 <= i < |images| && images[i].title == t {
        if t in before {
          var i :| 0 <= i < |front| && front[i].title == t;
          assert images[i].title == t;
        }
        if t == last.title { assert images[|images| - 1].title == t; }
        if i :| 0 <= i < |images| && images[i].title == t { assert i < |front| ==> front[i].title == t; }
      }
      forall i | 0 <= i < |images| && (forall j :: i < j < |images| ==> images[j].title != images[i].title)
        ensures images[i].title in m && m[images[i].title] == images[i].alias
      {
        if i < |front| {
          assert images[|images| - 1].title != images[i].title;
          assert forall j :: i < j < |front| ==> front[j].title == images[j].title;
          assert front[i] == images[i];
        }
      }
    }
  }

  /** The entry of a device that its own name finds: its name and alias; without models its own images, and with
      models one entry for each in their order, with the images of the model or else those of the device. */
  ghost predicate Shows(d: Tree, item: ListItem) {
    && item.title == d.name && item.alias == d.alias && |item.models| == |d.sub|
    && (if d.sub == [] then TitleTable(d.images, item.images) else item.images == map[])
    && forall j :: 0 <= j < |d.sub| ==>
         && item.models[j].title == d.sub[j].name && item.models[j].alias == d.sub[j].alias
         && TitleTable(if d.sub[j].images == [] then d.images else d.sub[j].images, item.models[j].images)
         && item.models[j].models == []
  }

  lemma {:induction false} ListingShows(devs: seq<Tree>, k: nat)
    requires k < |devs| && Locate(devs, devs[k].name) == Top(k)
    ensures Shows(devs[k], Listing(devs)[k])
  {
    var names := NamesOf(devs)[..k];
    OwnNameIsFound(devs, names, k);
    ListingIndependent(devs, names, devs[k].name);
    ResultShows(devs[k]);
    assert Returned(devs, devs[k].name) == TopResult(devs[k]);
  }

  lemma {:induction false} ResultShows(d: Tree)
    ensures Shows(d, Item(TopResult(d)))
  {
    var r := TopResult(d);
    ByTitleIsTable(d.images);
    assert r.name == d.name && r.alias == d.alias && r.images == d.images && |r.sub| == |d.sub|;
    forall j | 0 <= j < |d.sub|
      ensures r.sub[j].name == d.sub[j].name && r.sub[j].alias == d.sub[j].alias
      ensures r.sub[j].images == if d.sub[j].images == [] then d.images else d.sub[j].images
    {
    }
    forall j | 0 <= j < |d.sub| { ByTitleIsTable(r.sub[j].images); }
  }
}
