/** Go's `sort.Strings` on the distinct keys of a map. */
module SortedKeys {

  /** The byte order of strings. */
  predicate Less(a: string, b: string) {
    b != "" && (a == "" || a[0] < b[0] || (a[0] == b[0] && Less(a[1..], b[1..])))
  }

  lemma {:induction false} LessTransitive(a: string, b: string, c: string)
    requires Less(a, b) && Less(b, c)
    ensures Less(a, c)
  {
    if a != "" && a[0] == b[0] == c[0] { LessTransitive(a[1..], b[1..], c[1..]); }
  }

  lemma {:induction false} LessIrreflexive(a: string)
    ensures !Less(a, a)
  {
    if a != "" { LessIrreflexive(a[1..]); }
  }

  lemma {:induction false} LessTotal(a: string, b: string)
    ensures a == b || Less(a, b) || Less(b, a)
  {
    if a != "" && b != "" && a[0] == b[0] {
      LessTotal(a[1..], b[1..]);
      assert a == [a[0]] + a[1..] && b == [b[0]] + b[1..];
    }
  }

  predicate Ascending(ks: seq<string>) {
    forall i, j :: 0 <= i < j < |ks| ==> Less(ks[i], ks[j])
  }

  lemma {:induction false} AscendingByInitial(ks: seq<string>)
    requires forall i :: 0 <= i < |ks| ==> ks[i] != ""
    requires forall i, j :: 0 <= i < j < |ks| ==> ks[i][0] < ks[j][0]
    ensures Ascending(ks)
  {
  }

  function Insert(k: string, ks: seq<string>): (r: seq<string>)
    ensures forall x :: x in r <==> x == k || x in ks
  {
    if ks == [] then [k]
    else if Less(k, ks[0]) then [k] + ks
    else [ks[0]] + Insert(k, ks[1..])
  }

  function Sort(ks: seq<string>): (r: seq<string>)
    ensures forall x :: x in r <==> x in ks
  {
    if ks == [] then [] else Insert(ks[0], Sort(ks[1..]))
  }

  lemma {:induction false} InsertAscending(k: string, ks: seq<string>)
    requires Ascending(ks) && k !in ks
    ensures Ascending(Insert(k, ks))
  {
    if ks != [] {
      if Less(k, ks[0]) {
        forall j | 1 <= j < |ks| ensures Less(k, ks[j]) { LessTransitive(k, ks[0], ks[j]); }
      } else {
        LessTotal(k, ks[0]);
        InsertAscending(k, ks[1..]);
        var rest := Insert(k, ks[1..]);
        forall j | 0 <= j < |rest| ensures Less(ks[0], rest[j]) { assert rest[j] in rest; }
      }
    }
  }

  predicate Distinct(ks: seq<string>) {
    forall i, j :: 0 <= i < j < |ks| ==> ks[i] != ks[j]
  }

  lemma {:induction false} SortAscending(ks: seq<string>)
    requires Distinct(ks)
    ensures Ascending(Sort(ks))
  {
    if ks != [] {
      SortAscending(ks[1..]);
      InsertAscending(ks[0], Sort(ks[1..]));
    }
  }

  lemma {:induction false} AscendingDistinct(ks: seq<string>)
    requires Ascending(ks)
    ensures Distinct(ks)
  {
    forall i, j | 0 <= i < j < |ks| ensures ks[i] != ks[j] {
      LessIrreflexive(ks[i]);
    }
  }

  /** An ascending list is settled by its members. */
  lemma {:induction false} AscendingUnique(a: seq<string>, b: seq<string>)
    requires Ascending(a) && Ascending(b) && forall x :: x in a <==> x in b
    ensures a == b
  {
    EmptyAlike(a, b);
    if a != [] {
      FirstIsLeast(a, b);
      TailMembers(a);
      TailMembers(b);
      AscendingUnique(a[1..], b[1..]);
      assert a == [a[0]] + a[1..] && b == [b[0]] + b[1..];
    }
  }

  lemma {:induction false} EmptyAlike(a: seq<string>, b: seq<string>)
    requires forall x :: x in a <==> x in b
    ensures a == [] <==> b == []
  {
    assert a != [] ==> a[0] in a;
    assert b != [] ==> b[0] in b;
  }

  lemma {:induction false} TailMembers(ks: seq<string>)
    requires Ascending(ks) && ks != []
    ensures forall x :: x in ks[1..] <==> x in ks && x != ks[0]
  {
    AscendingDistinct(ks);
    assert ks == [ks[0]] + ks[1..];
    forall x | x in ks[1..] ensures x != ks[0] {
      var i :| 0 <= i < |ks[1..]| && ks[1..][i] == x;
      assert ks[i + 1] == x;
    }
  }

  lemma {:induction false} FirstIsLeast(a: seq<string>, b: seq<string>)
    requires Ascending(a) && Ascending(b) && a != [] && b != [] && forall x :: x in a <==> x in b
    ensures a[0] == b[0]
  {
    assert a[0] in b && b[0] in a;
    var i :| 0 <= i < |b| && b[i] == a[0];
    var j :| 0 <= j < |a| && a[j] == b[0];
    if i > 0 && j > 0 {
      LessTransitive(a[0], b[0], a[0]);
      LessIrreflexive(a[0]);
    }
  }
}
