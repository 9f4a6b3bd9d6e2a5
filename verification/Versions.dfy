/** Version tokenising and ordering of `repo/repository.go`. */
module Versions {
  import opened Text

  // ----- getVersionLexem -----

  function Concat(lists: seq<seq<string>>): seq<string> {
    if lists == [] then [] else Concat(lists[..|lists| - 1]) + lists[|lists| - 1]
  }

  function SplitAll(lexs: seq<string>, sep: string): seq<seq<string>> {
    seq(|lexs|, i requires 0 <= i < |lexs| => Split(lexs[i], sep))
  }

  function SplitEach(lexs: seq<string>, sep: string): seq<string> {
    Concat(SplitAll(lexs, sep))
  }

  /** Repeated splitting: the whole list is split again at each further separator. */
  function Lexemes(token: string, seps: seq<string>): seq<string>
    decreases |seps|
  {
    if seps == [] then []
    else if |seps| == 1 then Split(token, seps[0])
    else SplitEach(Lexemes(token, seps[..|seps| - 1]), seps[|seps| - 1])
  }

  method GetVersionLexem(token: string, seps: seq<string>) returns (lexs: seq<string>)
    ensures lexs == Lexemes(token, seps)
  {
    lexs := [];
    for i := 0 to |seps|
      invariant lexs == Lexemes(token, seps[..i])
    {
      assert seps[..i + 1][..i] == seps[..i];
      if i == 0 {
        lexs := Split(token, seps[i]);
        continue;
      }
      var tmp := [];
      for j := 0 to |lexs|
        invariant tmp == SplitEach(lexs[..j], seps[i])
      {
        SplitEachConcat(lexs[..j], [lexs[j]], seps[i]);
        assert lexs[..j] + [lexs[j]] == lexs[..j + 1];
        tmp := tmp + Split(lexs[j], seps[i]);
      }
      assert lexs[..|lexs|] == lexs;
      lexs := tmp;
    }
    assert seps[..|seps|] == seps;
  }

  function Singletons(seps: string): seq<string> {
    seq(|seps|, i requires 0 <= i < |seps| => [seps[i]])
  }

  function CharsOf(s: string): set<char> {
    set c | c in s
  }

  lemma {:induction false} ConcatAppend(a: seq<seq<string>>, b: seq<seq<string>>)
    ensures Concat(a + b) == Concat(a) + Concat(b)
  {
    if b == [] {
      assert a + b == a;
    } else {
      var front := b[..|b| - 1];
      ConcatAppend(a, front);
      assert (a + b)[..|a + b| - 1] == a + front;
    }
  }

  lemma {:induction false} SplitEachConcat(a: seq<string>, b: seq<string>, sep: string)
    ensures SplitEach(a + b, sep) == SplitEach(a, sep) + SplitEach(b, sep)
    ensures forall lex :: b == [lex] ==> SplitEach(b, sep) == Split(lex, sep)
  {
    ConcatAppend(SplitAll(a, sep), SplitAll(b, sep));
    assert SplitAll(a + b, sep) == SplitAll(a, sep) + SplitAll(b, sep);
    if |b| == 1 {
      assert Concat(SplitAll(b, sep)) == Concat([]) + Split(b[0], sep);
    }
  }

  lemma {:induction false} SplitEachCons(head: string, tail: seq<string>, sep: string)
    ensures SplitEach([head] + tail, sep) == Split(head, sep) + SplitEach(tail, sep)
  {
    SplitEachConcat([], [head], sep);
    SplitEachConcat([head], tail, sep);
  }

  /** Splitting every piece of a one-pass split at one more character. */
  lemma {:induction false} SplitEachWidens(s: string, seps: set<char>, c: char)
    ensures SplitEach(SplitAny(s, seps), [c]) == SplitAny(s, seps + {c})
  {
    if s == "" {
      SplitEachCons("", [], [c]);
      SplitOneChar("", c);
    } else {
      SplitEachWidens(s[1..], seps, c);
      var rest := SplitAny(s[1..], seps);
      if s[0] in seps {
        WidenEmptyPiece(rest, c);
      } else {
        WidenFirstPiece(s[0], rest[0], rest[1..], c);
        assert rest == [rest[0]] + rest[1..];
      }
    }
  }

  lemma {:induction false} WidenEmptyPiece(tail: seq<string>, c: char)
    ensures SplitEach([""] + tail, [c]) == [""] + SplitEach(tail, [c])
  {
    SplitEachCons("", tail, [c]);
    SplitOneChar("", c);
  }

  lemma {:induction false} SplitCons(x: char, p: string, c: char)
    ensures Split([x] + p, [c]) == if x == c then [""] + Split(p, [c]) else PrependChar(x, Split(p, [c]))
  {
    SplitOneChar(p, c);
    SplitOneChar([x] + p, c);
    assert ([x] + p)[1..] == p;
  }

  /** Putting one character in front of the first piece, before or after splitting every piece. */
  lemma {:induction false} WidenFirstPiece(x: char, p: string, tail: seq<string>, c: char)
    ensures var split := SplitEach([p] + tail, [c]);
            && split != []
            && SplitEach([[x] + p] + tail, [c]) == if x == c then [""] + split else PrependChar(x, split)
  {
    SplitEachCons(p, tail, [c]);
    SplitEachCons([x] + p, tail, [c]);
    SplitCons(x, p, c);
    PrependConcat(x, Split(p, [c]), SplitEach(tail, [c]));
  }

  /** With one-character separators, repeated splitting is one-pass splitting on the whole set. */
  lemma {:induction false} LexemesOnePass(token: string, seps: string)
    requires seps != ""
    ensures Lexemes(token, Singletons(seps)) == SplitAny(token, CharsOf(seps))
    decreases |seps|
  {
    var last := seps[|seps| - 1];
    if |seps| == 1 {
      SplitOneChar(token, last);
      assert CharsOf(seps) == {last};
    } else {
      var front := seps[..|seps| - 1];
      LexemesOnePass(token, front);
      SplitEachWidens(token, CharsOf(front), last);
      assert Singletons(seps)[..|seps| - 1] == Singletons(front);
      assert seps == front + [last];
      assert CharsOf(seps) == CharsOf(front) + {last};
    }
  }

  /** The order and the repetition of the separators do not matter. */
  lemma {:induction false} LexemesIgnoreSeparatorOrder(token: string, seps: string, seps': string)
    requires seps != "" && CharsOf(seps) == CharsOf(seps')
    ensures Lexemes(token, Singletons(seps)) == Lexemes(token, Singletons(seps'))
  {
    assert seps[0] in CharsOf(seps');
    LexemesOnePass(token, seps);
    LexemesOnePass(token, seps');
  }

  /** Tokenising loses nothing but separators, and is the only tokenising that does so. */
  lemma {:induction false} LexemesLossless(token: string, seps: string)
    requires seps != ""
    ensures var lexs, marks := Lexemes(token, Singletons(seps)), SeparatorsOf(token, CharsOf(seps));
            && |lexs| == |marks| + 1
            && Interleave(lexs, marks) == token
            && (forall p :: p in lexs ==> FreeOf(p, CharsOf(seps)))
            && forall lexs': seq<string>, marks': string ::
                 && |lexs'| == |marks'| + 1
                 && (forall p :: p in lexs' ==> FreeOf(p, CharsOf(seps)))
                 && (forall c :: c in marks' ==> c in CharsOf(seps))
                 && Interleave(lexs', marks') == token
                 ==> lexs' == lexs && marks' == marks
  {
    LexemesOnePass(token, seps);
    SplitAnyLossless(token, CharsOf(seps));
    forall lexs': seq<string>, marks': string |
      && |lexs'| == |marks'| + 1
      && (forall p :: p in lexs' ==> FreeOf(p, CharsOf(seps)))
      && (forall c :: c in marks' ==> c in CharsOf(seps))
      && Interleave(lexs', marks') == token
    {
      SplitAnyUnique(token, CharsOf(seps), lexs', marks');
    }
  }

  // ----- IsVersionUpToDate -----

  const VERSION_SEPARATORS := {'.', '_', '-'}

  /** The lexemes that IsVersionUpToDate compares. */
  function VersionLexemes(v: string): seq<string> {
    SplitAny(v, VERSION_SEPARATORS)
  }

  /** A version is cut at dots, underscores and dashes, and nowhere else. */
  lemma {:induction false} VersionSeparators(c: char)
    ensures VersionLexemes([c]) == if c == '.' || c == '_' || c == '-' then ["", ""] else [[c]]
  {
    SplitAnyUnique([c], VERSION_SEPARATORS, if c in VERSION_SEPARATORS then ["", ""] else [[c]],
                   if c in VERSION_SEPARATORS then [c] else []);
  }

  function ParseAll(lexs: seq<string>): (ps: seq<Result<int>>)
    ensures |ps| == |lexs|
  {
    seq(|lexs|, i requires 0 <= i < |lexs| => ParseInt64(lexs[i]))
  }

  /** Compare from position `i` on; a lexeme only matters when everything before it was equal. */
  function CompareFrom(p1: seq<Result<int>>, p2: seq<Result<int>>, i: nat): Result<bool>
    decreases |p1| - i
  {
    if i >= |p1| || i >= |p2| then Ok(false)
    else if p1[i].Err? then Err(p1[i].offender)
    else if p2[i].Err? then Err(p2[i].offender)
    else if p1[i].value == p2[i].value then CompareFrom(p1, p2, i + 1)
    else Ok(p1[i].value > p2[i].value)
  }

  function UpToDate(v1: string, v2: string): Result<bool> {
    CompareFrom(ParseAll(VersionLexemes(v1)), ParseAll(VersionLexemes(v2)), 0)
  }

  /** The lexemes before `k` parse and are pairwise equal as numbers. */
  predicate AgreeBefore(p1: seq<Result<int>>, p2: seq<Result<int>>, k: nat)
    requires k <= |p1| && k <= |p2|
  {
    forall i :: 0 <= i < k ==> p1[i].Ok? && p1[i] == p2[i]
  }

  /** The answer is settled at position `k`: one list runs out and the answer is "no", or a lexeme there
      does not parse and is blamed, or the numbers there differ and decide. */
  predicate SettledAt(p1: seq<Result<int>>, p2: seq<Result<int>>, k: nat, answer: Result<bool>) {
    if k >= |p1| || k >= |p2| then answer == Ok(false)
    else
      match answer
      case Ok(b) => p1[k].Ok? && p2[k].Ok? && p1[k] != p2[k] && b == (p1[k].value > p2[k].value)
      case Err(x) => p1[k] == Err(x) || (p1[k].Ok? && p2[k] == Err(x))
  }

  /** An answer settled at some position, with agreement before it, is the answer. */
  lemma {:induction false} SettlesAnswer(p1: seq<Result<int>>, p2: seq<Result<int>>, i: nat, k: nat,
                                         answer: Result<bool>)
    requires i <= k <= |p1| && k <= |p2| && AgreeBefore(p1, p2, k)
    requires SettledAt(p1, p2, k, answer)
    ensures CompareFrom(p1, p2, i) == answer
    decreases k - i
  {
    if i < k { SettlesAnswer(p1, p2, i + 1, k, answer); }
  }

  lemma {:induction false} SettledFrom(p1: seq<Result<int>>, p2: seq<Result<int>>, i: nat) returns (k: nat)
    requires i <= |p1| && i <= |p2| && AgreeBefore(p1, p2, i)
    ensures i <= k <= |p1| && k <= |p2| && AgreeBefore(p1, p2, k)
    ensures SettledAt(p1, p2, k, CompareFrom(p1, p2, i))
    decreases |p1| - i
  {
    k := i;
    if i < |p1| && i < |p2| && p1[i].Ok? && p1[i] == p2[i] {
      k := SettledFrom(p1, p2, i + 1);
    }
  }

  /** What the answer means, with nothing left open: it is the one answer that some position settles
      after lexemes that all parse and are equal. */
  lemma {:induction false} DecisionPoint(v1: string, v2: string, answer: Result<bool>)
    ensures var p1, p2 := ParseAll(VersionLexemes(v1)), ParseAll(VersionLexemes(v2));
            UpToDate(v1, v2) == answer <==>
            exists k: nat :: k <= |p1| && k <= |p2| && AgreeBefore(p1, p2, k) && SettledAt(p1, p2, k, answer)
  {
    var p1, p2 := ParseAll(VersionLexemes(v1)), ParseAll(VersionLexemes(v2));
    if UpToDate(v1, v2) == answer {
      var k := SettledFrom(p1, p2, 0);
    } else {
      forall k: nat | k <= |p1| && k <= |p2| && AgreeBefore(p1, p2, k) ensures !SettledAt(p1, p2, k, answer) {
        if SettledAt(p1, p2, k, answer) { SettlesAnswer(p1, p2, 0, k, answer); }
      }
    }
  }

  method VersionLexem(v: string) returns (lexs: seq<string>)
    ensures lexs == VersionLexemes(v)
  {
    lexs := GetVersionLexem(v, [".", "_", "-"]);
    LexemesOnePass(v, "._-");
    assert Singletons("._-") == [".", "_", "-"] && CharsOf("._-") == VERSION_SEPARATORS;
  }

  method IsVersionUpToDate(v1: string, v2: string) returns (r: Result<bool>)
    ensures r == UpToDate(v1, v2)
  {
    var vlex1 := VersionLexem(v1);
    var vlex2 := VersionLexem(v2);
    r := CompareLexemes(vlex1, vlex2, ParseInt64, ParseAll(vlex1), ParseAll(vlex2));
  }

  /** The loop over the lexemes, which `parse` reads as `p1` and `p2`. */
  method CompareLexemes(vlex1: seq<string>, vlex2: seq<string>, parse: string -> Result<int>,
                        ghost p1: seq<Result<int>>, ghost p2: seq<Result<int>>)
    returns (r: Result<bool>)
    requires |p1| == |vlex1| && forall j :: 0 <= j < |p1| ==> p1[j] == parse(vlex1[j])
    requires |p2| == |vlex2| && forall j :: 0 <= j < |p2| ==> p2[j] == parse(vlex2[j])
    ensures r == CompareFrom(p1, p2, 0)
  {
    var i := 0;
    while i < |vlex1| && i < |vlex2|
      invariant i <= |vlex1| && i <= |vlex2|
      invariant CompareFrom(p1, p2, 0) == CompareFrom(p1, p2, i)
    {
      var n1 := parse(vlex1[i]);
      if n1.Err? {
        return Err(n1.offender);
      }
      var n2 := parse(vlex2[i]);
      if n2.Err? {
        return Err(n2.offender);
      }
      if n1.value == n2.value {
        i := i + 1;
        continue;
      }
      return Ok(n1.value > n2.value);
    }
    return Ok(false);
  }

  // ----- the order on number lists -----

  /** `a` has the greater number at the first position where the two lists differ. */
  predicate Newer(a: seq<int>, b: seq<int>) {
    a != [] && b != [] && (a[0] > b[0] || (a[0] == b[0] && Newer(a[1..], b[1..])))
  }

  predicate AllParse(l: seq<string>) {
    forall p :: p in ParseAll(l) ==> p.Ok?
  }

  function Numbers(l: seq<string>): (ns: seq<int>)
    requires AllParse(l)
    ensures |ns| == |l|
    ensures forall i :: 0 <= i < |l| ==> ParseAll(l)[i] == Ok(ns[i])
  {
    seq(|l|, i requires 0 <= i < |l| => assert ParseAll(l)[i] in ParseAll(l); ParseAll(l)[i].value)
  }

  lemma {:induction false} CompareIsNewer(l1: seq<string>, l2: seq<string>, i: nat)
    requires AllParse(l1) && AllParse(l2) && i <= |l1| && i <= |l2|
    ensures CompareFrom(ParseAll(l1), ParseAll(l2), i) == Ok(Newer(Numbers(l1)[i..], Numbers(l2)[i..]))
    decreases |l1| - i
  {
    if i < |l1| && i < |l2| {
      CompareIsNewer(l1, l2, i + 1);
      assert Numbers(l1)[i..][1..] == Numbers(l1)[i + 1..];
      assert Numbers(l2)[i..][1..] == Numbers(l2)[i + 1..];
    }
  }

  lemma {:induction false} UpToDateIsNewer(v1: string, v2: string)
    requires AllParse(VersionLexemes(v1)) && AllParse(VersionLexemes(v2))
    ensures UpToDate(v1, v2) == Ok(Newer(Numbers(VersionLexemes(v1)), Numbers(VersionLexemes(v2))))
  {
    var l1, l2 := VersionLexemes(v1), VersionLexemes(v2);
    CompareIsNewer(l1, l2, 0);
    assert Numbers(l1)[0..] == Numbers(l1) && Numbers(l2)[0..] == Numbers(l2);
  }

  lemma {:induction false} NewerAsymmetric(a: seq<int>, b: seq<int>)
    ensures !(Newer(a, b) && Newer(b, a))
  {
    if a != [] && b != [] { NewerAsymmetric(a[1..], b[1..]); }
  }

  lemma {:induction false} NewerTransitive(a: seq<int>, b: seq<int>, c: seq<int>)
    requires Newer(a, b) && Newer(b, c)
    ensures Newer(a, c)
  {
    if a[0] == b[0] == c[0] { NewerTransitive(a[1..], b[1..], c[1..]); }
  }

  /** Two versions are incomparable exactly when one is a leading part of the other. */
  lemma {:induction false} IncomparableIffPrefix(a: seq<int>, b: seq<int>)
    ensures !Newer(a, b) && !Newer(b, a) <==> a <= b || b <= a
  {
    if a != [] && b != [] {
      IncomparableIffPrefix(a[1..], b[1..]);
      assert a == [a[0]] + a[1..] && b == [b[0]] + b[1..];
    }
  }

  /** On versions whose lexemes all parse, for any mix of lengths, "is up to date" is a strict partial
      order, and it fails to order exactly the pairs where one number list begins the other. */
  lemma {:induction false} UpToDateIsStrictPartialOrder(a: string, b: string, c: string)
    requires AllParse(VersionLexemes(a)) && AllParse(VersionLexemes(b)) && AllParse(VersionLexemes(c))
    ensures UpToDate(a, a) == Ok(false)
    ensures UpToDate(a, b) == Ok(true) ==> UpToDate(b, a) == Ok(false)
    ensures UpToDate(a, b) == Ok(true) && UpToDate(b, c) == Ok(true) ==> UpToDate(a, c) == Ok(true)
    ensures var m, n := Numbers(VersionLexemes(a)), Numbers(VersionLexemes(b));
            UpToDate(a, b) == UpToDate(b, a) == Ok(false) <==> m <= n || n <= m
  {
    UpToDateIsNewer(a, a);
    UpToDateIsNewer(a, b);
    UpToDateIsNewer(b, a);
    UpToDateIsNewer(b, c);
    UpToDateIsNewer(a, c);
    var na, nb, nc := Numbers(VersionLexemes(a)), Numbers(VersionLexemes(b)), Numbers(VersionLexemes(c));
    NewerAsymmetric(na, na);
    NewerAsymmetric(na, nb);
    IncomparableIffPrefix(na, nb);
    if Newer(na, nb) && Newer(nb, nc) { NewerTransitive(na, nb, nc); }
  }

  /** With equally many lexemes the order is total up to numeric equality. */
  lemma {:induction false} UpToDateTotalOnEqualCounts(a: string, b: string)
    requires AllParse(VersionLexemes(a)) && AllParse(VersionLexemes(b))
    requires |VersionLexemes(a)| == |VersionLexemes(b)|
    ensures var equal := Numbers(VersionLexemes(a)) == Numbers(VersionLexemes(b));
            && (equal <==> UpToDate(a, b) == UpToDate(b, a) == Ok(false))
            && (!equal ==> (UpToDate(a, b) == Ok(true)) != (UpToDate(b, a) == Ok(true)))
  {
    UpToDateIsStrictPartialOrder(a, b, a);
    UpToDateIsNewer(a, b);
    UpToDateIsNewer(b, a);
    var m, n := Numbers(VersionLexemes(a)), Numbers(VersionLexemes(b));
    assert m <= n || n <= m ==> m == n;
  }

  /** Incomparability is not transitive: 1.1 and 1.2 are both incomparable with 1, not with each other. */
  lemma {:induction false} UpToDateIsNoWeakOrder()
    ensures UpToDate("1.1", "1") == UpToDate("1", "1.1") == Ok(false)
    ensures UpToDate("1.2", "1") == UpToDate("1", "1.2") == Ok(false)
    ensures UpToDate("1.2", "1.1") == Ok(true)
  {
    LexemesOfThree('1', '.', '1');
    LexemesOfThree('1', '.', '2');
    SplitAnyUnique("1", VERSION_SEPARATORS, ["1"], "");
    ParseDigit('1');
    ParseDigit('2');
    assert ["1", "1"][1..] == ["1"] && ["1", "2"][1..] == ["2"];
  }

  lemma {:induction false} LexemesOfThree(x: char, sep: char, y: char)
    requires x !in VERSION_SEPARATORS && y !in VERSION_SEPARATORS && sep in VERSION_SEPARATORS
    ensures VersionLexemes([x, sep, y]) == [[x], [y]]
  {
    SplitAnyUnique([x, sep, y], VERSION_SEPARATORS, [[x], [y]], [sep]);
  }

  lemma {:induction false} ParseDigit(d: char)
    requires IsDigit(d)
    ensures ParseInt64([d]) == Ok((d - '0') as int)
  {
    assert DigitsValue([d][..0]) == 0;
  }

  // ----- currentRelease -----

  datatype Release = Latest | Stable

  /** The characters of the class `[\d|_]`, which includes the bar itself. */
  predicate InReleaseClass(c: char) {
    IsDigit(c) || c == '|' || c == '_'
  }

  predicate ReleasePart(s: string) {
    s != "" && forall i :: 0 <= i < |s| ==> InReleaseClass(s[i])
  }

  /** A match of the whole string against three `[\d|_]+` groups joined by dots, with the dots at `i`
      and `j`. */
  predicate MatchesStable(v: string, i: nat, j: nat) {
    i < j < |v| && v[i] == '.' && v[j] == '.' &&
    ReleasePart(v[..i]) && ReleasePart(v[i + 1..j]) && ReleasePart(v[j + 1..])
  }

  function CurrentRelease(version: string): Release {
    if exists i: nat, j: nat | i < j < |version| :: MatchesStable(version, i, j) then Stable else Latest
  }

  predicate ThreeReleaseParts(parts: seq<string>) {
    |parts| == 3 && ReleasePart(parts[0]) && ReleasePart(parts[1]) && ReleasePart(parts[2])
  }

  lemma {:induction false} InterleaveThree(a: string, b: string, c: string)
    ensures Interleave([a, b, c], "..") == a + "." + (b + "." + c)
  {
    assert [a, b, c][1..] == [b, c] && [b, c][1..] == [c] && ".."[1..] == "." && "."[1..] == "";
    assert Interleave([c], "") == c;
    assert Interleave([b, c], ".") == b + "." + c;
  }

  lemma {:induction false} MatchSplits(v: string, i: nat, j: nat)
    requires i < j < |v| && MatchesStable(v, i, j)
    ensures SplitAny(v, {'.'}) == [v[..i], v[i + 1..j], v[j + 1..]]
  {
    var parts := [v[..i], v[i + 1..j], v[j + 1..]];
    InterleaveThree(v[..i], v[i + 1..j], v[j + 1..]);
    assert v == v[..i] + "." + (v[i + 1..j] + "." + v[j + 1..]);
    SplitAnyUnique(v, {'.'}, parts, "..");
  }

  /** A release is stable exactly when splitting at dots gives three parts, all of them non-empty
      strings of digits, bars and underscores. */
  lemma {:induction false} StableIffThreeParts(v: string)
    ensures CurrentRelease(v) == Stable <==> ThreeReleaseParts(SplitAny(v, {'.'}))
  {
    var parts, marks := SplitAny(v, {'.'}), SeparatorsOf(v, {'.'});
    if CurrentRelease(v) == Stable {
      var i: nat, j: nat :| i < j < |v| && MatchesStable(v, i, j);
      MatchSplits(v, i, j);
    }
    if ThreeReleaseParts(parts) {
      SplitAnyLossless(v, {'.'});
      SeparatorsAreSeparators(v, {'.'});
      assert marks[0] in marks && marks[1] in marks;
      assert marks == ".." && parts == [parts[0], parts[1], parts[2]];
      InterleaveThree(parts[0], parts[1], parts[2]);
      var i := |parts[0]|;
      var j := i + 1 + |parts[1]|;
      assert v[..i] == parts[0] && v[i + 1..j] == parts[1] && v[j + 1..] == parts[2];
      assert MatchesStable(v, i, j);
    }
  }
}
