/** Which names and aliases a lookup answers to, letter by letter. */
module DeviceNames {
  import opened DeviceTree
  import opened DeviceLookups

  const UPPER := "ABCDEFGHIJKLMNOPQRSTUVWXYZ"
  const LOWER := "abcdefghijklmnopqrstuvwxyz"

  /** `d` is the small letter of `c`, or `c` itself when that is no capital letter. */
  ghost predicate Small(c: char, d: char) {
    if c in UPPER then exists k :: 0 <= k < 26 && UPPER[k] == c && LOWER[k] == d else d == c
  }

  lemma {:induction false} LettersInOrder(k: nat)
    requires k < 26
    ensures UPPER[k] == 'A' + k as char && LOWER[k] == 'a' + k as char
  {
  }

  lemma {:induction false} LowerIsSmall(c: char)
    ensures Small(c, LowerChar(c))
  {
    if 'A' <= c <= 'Z' {
      var k := (c - 'A') as int;
      LettersInOrder(k);
      assert UPPER[k] == c && LOWER[k] == LowerChar(c);
    } else if c in UPPER {
      var k :| 0 <= k < |UPPER| && UPPER[k] == c;
      LettersInOrder(k);
      assert false;
    }
  }

  /** Lower-casing changes capital letters into their small ones and nothing else. */
  lemma {:induction false} ToLowerIsSmall(s: string)
    ensures |ToLower(s)| == |s| && forall i :: 0 <= i < |s| ==> Small(s[i], ToLower(s)[i])
  {
    forall i | 0 <= i < |s| ensures Small(s[i], ToLower(s)[i]) { LowerIsSmall(s[i]); }
  }

  /** A lookup reaches the first entry that carries the lower-cased search as alias, or as name in any case. */
  lemma {:induction false} ReachedByNameOrAlias(devs: seq<Tree>, device: string, f: Found)
    requires IsEntry(devs, f)
    requires Entry(devs, f).alias == ToLower(device) || ToLower(Entry(devs, f).name) == ToLower(device)
    requires forall g :: IsEntry(devs, g) && Precedes(g, f) ==>
               Entry(devs, g).alias != ToLower(device) && ToLower(Entry(devs, g).name) != ToLower(device)
    ensures Locate(devs, device) == f
  {
    LocateIsFirst(devs, device, f);
  }

  /** It reaches nothing if and only if no entry carries it. */
  lemma {:induction false} NothingReached(devs: seq<Tree>, device: string)
    ensures Locate(devs, device).NoDevice? <==>
            forall i :: 0 <= i < |devs| ==>
              && devs[i].alias != ToLower(device) && ToLower(devs[i].name) != ToLower(device)
              && forall j :: 0 <= j < |devs[i].sub| ==>
                   devs[i].sub[j].alias != ToLower(device) && ToLower(devs[i].sub[j].name) != ToLower(device)
  {
    LocateIsFirst(devs, device, NoDevice);
    forall i | 0 <= i < |devs| && Locate(devs, device).NoDevice?
      ensures devs[i].alias != ToLower(device) && ToLower(devs[i].name) != ToLower(device)
      ensures forall j :: 0 <= j < |devs[i].sub| ==>
                devs[i].sub[j].alias != ToLower(device) && ToLower(devs[i].sub[j].name) != ToLower(device)
    {
      assert IsEntry(devs, Top(i)) && Entry(devs, Top(i)) == devs[i];
      forall j | 0 <= j < |devs[i].sub|
        ensures devs[i].sub[j].alias != ToLower(device) && ToLower(devs[i].sub[j].name) != ToLower(device)
      {
        assert IsEntry(devs, Below(i, j)) && Entry(devs, Below(i, j)) == devs[i].sub[j];
      }
    }
  }

  /** For example, "RASPI" finds the device with that alias. */
  lemma {:induction false} RaspiFindsRaspberryPi(devs: seq<Tree>)
    requires devs != [] && devs[0].name == "Raspberry Pi" && devs[0].alias == "raspi"
    ensures Locate(devs, "RASPI") == Top(0) && Locate(devs, "raspberry pi") == Top(0)
  {
    assert ToLower("RASPI") == "raspi";
    assert ToLower("raspberry pi") == ToLower("Raspberry Pi");
    ReachedByNameOrAlias(devs, "RASPI", Top(0));
    ReachedByNameOrAlias(devs, "raspberry pi", Top(0));
  }
}
