/** The version comparison of `CheckUpdate` in `vbox/machine.go`, and how it relates to the one of
    `repo/repository.go`. */
module VmUpdate {
  import opened Text
  import opened Versions

  /** The verb `%0<width>s`: zeros on the left up to the width, nothing cut off. */
  function Pad(value: string, width: nat): string {
    seq(if |value| < width then width - |value| else 0, _ => '0') + value
  }

  function Encode(parts: seq<string>, width: nat): string {
    if parts == [] then "" else Encode(parts[..|parts| - 1], width) + Pad(parts[|parts| - 1], width)
  }

  /** The value of a dotted version: components padded, concatenated and read as one number. */
  function VersionKey(s: string, width: nat): Result<int> {
    ParseInt64(Encode(Split(s, "."), width))
  }

  method Comparison(s: string, width: nat) returns (r: Result<int>)
    ensures r == VersionKey(s, width)
  {
    var strList := Split(s, ".");
    var v := "";
    for i := 0 to |strList|
      invariant v == Encode(strList[..i], width)
    {
      assert strList[..i + 1][..i] == strList[..i];
      v := v + Pad(strList[i], width);
    }
    assert strList[..|strList|] == strList;
    r := ParseInt64(v);
  }

  /** True when the downloaded version is the newer one; an unreadable version ends the program. */
  function UpdateAvailable(current: string, latest: string): Result<bool> {
    var c := VersionKey(current, 3);
    var n := VersionKey(latest, 3);
    if c.Err? then Err(c.offender) else if n.Err? then Err(n.offender) else Ok(c.value < n.value)
  }

  method CheckUpdate(currentVersion: string, newVersion: string) returns (r: Result<bool>)
    ensures r == UpdateAvailable(currentVersion, newVersion)
  {
    var c := Comparison(currentVersion, 3);
    if c.Err? {
      return Err(c.offender);
    }
    var n := Comparison(newVersion, 3);
    if n.Err? {
      return Err(n.offender);
    }
    if c.value < n.value {
      return Ok(true);
    }
    return Ok(false);
  }

  // ----- positional notation -----

  /** Every component is a digit string that fits the width; it may be empty. */
  predicate Fits(parts: seq<string>, width: nat) {
    forall i :: 0 <= i < |parts| ==> AllDigits(parts[i]) && |parts[i]| <= width
  }

  function Values(parts: seq<string>, width: nat): (vs: seq<int>)
    requires Fits(parts, width)
    ensures |vs| == |parts|
    ensures forall i :: 0 <= i < |vs| ==> vs[i] == DigitsValue(parts[i])
  {
    seq(|parts|, i requires 0 <= i < |parts| => DigitsValue(parts[i]))
  }

  function Horner(digits: seq<int>, base: nat): int {
    if digits == [] then 0 else Horner(digits[..|digits| - 1], base) * base + digits[|digits| - 1]
  }

  predicate DigitsBelow(digits: seq<int>, base: nat) {
    forall i :: 0 <= i < |digits| ==> 0 <= digits[i] < base
  }

  lemma {:induction false} ZerosHaveNoValue(n: nat)
    ensures AllDigits(seq(n, _ => '0')) && DigitsValue(seq(n, _ => '0')) == 0
  {
    if n != 0 {
      ZerosHaveNoValue(n - 1);
      assert seq(n, _ => '0')[..n - 1] == seq(n - 1, _ => '0');
    }
  }

  lemma {:induction false} PadKeepsValue(value: string, width: nat)
    requires AllDigits(value) && |value| <= width
    ensures |Pad(value, width)| == width && AllDigits(Pad(value, width))
    ensures DigitsValue(Pad(value, width)) == DigitsValue(value)
  {
    ZerosHaveNoValue(width - |value|);
    DigitsValueConcat(seq(width - |value|, _ => '0'), value);
  }

  lemma {:induction false} EncodeLength(parts: seq<string>, width: nat)
    requires Fits(parts, width)
    ensures |Encode(parts, width)| == |parts| * width
  {
    if parts != [] {
      var front, last := parts[..|parts| - 1], parts[|parts| - 1];
      EncodeLength(front, width);
      PadKeepsValue(last, width);
      assert |Encode(parts, width)| == |front| * width + width;
      MulSucc(|front|, width);
    }
  }

  lemma {:induction false} MulSucc(n: nat, width: nat)
    ensures (n + 1) * width == n * width + width
  {
  }

  /** Pad, concatenate and parse is Horner evaluation in base 10^width. */
  lemma {:induction false} EncodeIsHorner(parts: seq<string>, width: nat)
    requires Fits(parts, width)
    ensures AllDigits(Encode(parts, width))
    ensures DigitsValue(Encode(parts, width)) == Horner(Values(parts, width), Pow(10, width))
  {
    if parts != [] {
      var front, last := parts[..|parts| - 1], parts[|parts| - 1];
      EncodeIsHorner(front, width);
      PadKeepsValue(last, width);
      DigitsValueConcat(Encode(front, width), Pad(last, width));
      HornerSnoc(Values(front, width), DigitsValue(last), Pow(10, width));
      assert Values(parts, width) == Values(front, width) + [DigitsValue(last)];
    }
  }

  lemma {:induction false} HornerSnoc(digits: seq<int>, d: int, base: nat)
    ensures Horner(digits + [d], base) == Horner(digits, base) * base + d
  {
    assert (digits + [d])[..|digits|] == digits;
  }

  lemma {:induction false} ValuesBelow(parts: seq<string>, width: nat)
    requires Fits(parts, width)
    ensures DigitsBelow(Values(parts, width), Pow(10, width))
  {
    forall i | 0 <= i < |parts| ensures DigitsValue(parts[i]) < Pow(10, width) {
      PadKeepsValue(parts[i], width);
      DigitsValueBound(Pad(parts[i], width));
    }
  }

  lemma {:induction false} HornerBound(a: seq<int>, base: nat)
    requires DigitsBelow(a, base)
    ensures 0 <= Horner(a, base) < Pow(base, |a|)
  {
    if a != [] {
      var front := a[..|a| - 1];
      HornerBound(front, base);
      ShiftBound(Horner(front, base), Pow(base, |front|), a[|a| - 1], base);
    }
  }

  lemma {:induction false} ShiftBound(h: int, bound: int, d: int, base: nat)
    requires 0 <= h < bound && 0 <= d < base
    ensures 0 <= h * base + d < base * bound
  {
    assert (h + 1) * base <= bound * base;
  }

  lemma {:induction false} NewerSnoc(a: seq<int>, b: seq<int>, x: int, y: int)
    requires |a| == |b|
    ensures Newer(a + [x], b + [y]) <==> Newer(a, b) || (a == b && x > y)
  {
    if a == [] {
      assert (a + [x])[1..] == [];
    } else {
      NewerSnoc(a[1..], b[1..], x, y);
      assert (a + [x])[1..] == a[1..] + [x] && (b + [y])[1..] == b[1..] + [y];
      assert a == [a[0]] + a[1..] && b == [b[0]] + b[1..];
    }
  }

  /** On equally long digit lists, Horner evaluation is injective and strictly monotone for the
      left-to-right order. */
  lemma {:induction false} HornerEmbedsOrder(a: seq<int>, b: seq<int>, base: nat)
    requires |a| == |b| && DigitsBelow(a, base) && DigitsBelow(b, base)
    ensures Horner(a, base) == Horner(b, base) <==> a == b
    ensures Horner(a, base) < Horner(b, base) <==> Newer(b, a)
  {
    if a != [] {
      var front, front', x, y := a[..|a| - 1], b[..|b| - 1], a[|a| - 1], b[|b| - 1];
      assert a == front + [x] && b == front' + [y];
      HornerEmbedsOrder(front, front', base);
      NewerSnoc(front', front, y, x);
      DigitComparison(Horner(front, base), Horner(front', base), x, y, base);
    }
  }

  lemma {:induction false} DigitComparison(p: int, q: int, x: int, y: int, base: nat)
    requires 0 <= x < base && 0 <= y < base
    ensures p * base + x < q * base + y <==> p < q || (p == q && x < y)
    ensures p * base + x == q * base + y <==> p == q && x == y
  {
    if p < q { assert (p + 1) * base <= q * base; }
    if q < p { assert (q + 1) * base <= p * base; }
  }

  function LeadingZeros(a: seq<int>, n: nat): seq<int>
    requires |a| <= n
  {
    seq(n - |a|, _ => 0) + a
  }

  lemma {:induction false} HornerLeadingZeros(a: seq<int>, n: nat, base: nat)
    requires |a| <= n
    ensures Horner(LeadingZeros(a, n), base) == Horner(a, base)
    decreases n
  {
    var z := LeadingZeros(a, n);
    if a != [] {
      assert z[..n - 1] == LeadingZeros(a[..|a| - 1], n - 1);
      HornerLeadingZeros(a[..|a| - 1], n - 1, base);
    } else if n != 0 {
      assert z[..n - 1] == LeadingZeros(a, n - 1);
      HornerLeadingZeros(a, n - 1, base);
    }
  }

  // ----- the key of a version -----

  /** A version whose components are digit strings of at most `width` characters has a key exactly when
      its Horner value fits 64 bits, and the key then is that value. */
  lemma {:induction false} KeyIsHorner(s: string, width: nat)
    requires Fits(Split(s, "."), width) && width > 0
    ensures var value := Horner(Values(Split(s, "."), width), Pow(10, width));
            VersionKey(s, width) ==
            if value <= MAX_INT64 then Ok(value) else Err(Encode(Split(s, "."), width))
  {
    var parts := Split(s, ".");
    EncodeIsHorner(parts, width);
    PadKeepsValue(parts[|parts| - 1], width);
    var e := Encode(parts, width);
    assert e != "" && IsDigit(e[0]);
  }

  /** Up to six components of width 3 never overflow. */
  lemma {:induction false} SixComponentsFit(s: string)
    requires Fits(Split(s, "."), 3) && |Split(s, ".")| <= 6
    ensures VersionKey(s, 3).Ok?
  {
    var parts := Split(s, ".");
    KeyIsHorner(s, 3);
    EncodeIsHorner(parts, 3);
    EncodeLength(parts, 3);
    DigitsValueBound(Encode(parts, 3));
    PowMonotone(10, |parts| * 3, 18);
    assert Pow(10, 18) == 1_000_000_000_000_000_000 by { PowAdd(10, 9, 9); assert Pow(10, 9) == 1_000_000_000; }
  }

  lemma {:induction false} PowMonotone(base: nat, m: nat, n: nat)
    requires base > 0 && m <= n
    ensures 0 < Pow(base, m) <= Pow(base, n)
    decreases n
  {
    PowPositive(base, m);
    if m < n {
      PowMonotone(base, m, n - 1);
      GrowsByFactor(base, Pow(base, n - 1));
    }
  }

  lemma {:induction false} PowPositive(base: nat, n: nat)
    requires base > 0
    ensures Pow(base, n) > 0
  {
    if n != 0 {
      PowPositive(base, n - 1);
      GrowsByFactor(base, Pow(base, n - 1));
    }
  }

  lemma {:induction false} GrowsByFactor(base: nat, x: nat)
    requires base > 0
    ensures x <= base * x
  {
  }

  /** For any two versions of fitting components, whatever their lengths, the keys compare like the
      component lists aligned on the right, the shorter one led by zeros. */
  lemma {:induction false} KeysAlignRight(c: string, n: string, width: nat, length: nat)
    requires width > 0 && Fits(Split(c, "."), width) && Fits(Split(n, "."), width)
    requires VersionKey(c, width).Ok? && VersionKey(n, width).Ok?
    requires |Split(c, ".")| <= length && |Split(n, ".")| <= length
    ensures var lc := LeadingZeros(Values(Split(c, "."), width), length);
            var ln := LeadingZeros(Values(Split(n, "."), width), length);
            && (VersionKey(c, width).value < VersionKey(n, width).value <==> Newer(ln, lc))
            && (VersionKey(c, width) == VersionKey(n, width) <==> ln == lc)
  {
    KeyIsHorner(c, width);
    KeyIsHorner(n, width);
    ValuesBelow(Split(c, "."), width);
    ValuesBelow(Split(n, "."), width);
    PowMonotone(10, 0, width);
    HornerAlignsRight(Values(Split(c, "."), width), Values(Split(n, "."), width), Pow(10, width), length);
  }

  lemma {:induction false} HornerAlignsRight(a: seq<int>, b: seq<int>, base: nat, length: nat)
    requires DigitsBelow(a, base) && DigitsBelow(b, base) && |a| <= length && |b| <= length && base > 0
    ensures var a', b' := LeadingZeros(a, length), LeadingZeros(b, length);
            && (Horner(a, base) < Horner(b, base) <==> Newer(b', a'))
            && (Horner(a, base) == Horner(b, base) <==> a' == b')
  {
    HornerLeadingZeros(a, length, base);
    HornerLeadingZeros(b, length, base);
    HornerEmbedsOrder(LeadingZeros(a, length), LeadingZeros(b, length), base);
  }

  // ----- agreement of the two orders -----

  /** A dotted version: every component has one to three digits. */
  predicate Dotted(s: string) {
    Fits(Split(s, "."), 3) && "" !in Split(s, ".")
  }

  /** The components read as digits in base 1000. */
  function Key(s: string): int
    requires Dotted(s)
  {
    Horner(Values(Split(s, "."), 3), 1000)
  }

  lemma {:induction false} DottedLexemes(s: string)
    requires Dotted(s)
    ensures VersionLexemes(s) == Split(s, ".")
    ensures AllParse(VersionLexemes(s))
    ensures Numbers(VersionLexemes(s)) == Values(Split(s, "."), 3)
  {
    var parts, marks := Split(s, "."), SeparatorsOf(s, {'.'});
    SplitOneChar(s, '.');
    SplitAnyLossless(s, {'.'});
    SeparatorsAreSeparators(s, {'.'});
    forall p | p in parts ensures FreeOf(p, VERSION_SEPARATORS) {
      forall c | c in p ensures c !in VERSION_SEPARATORS { var i :| 0 <= i < |p| && p[i] == c; }
    }
    SplitAnyUnique(s, VERSION_SEPARATORS, parts, marks);
    forall i | 0 <= i < |parts| ensures ParseAll(parts)[i] == Ok(DigitsValue(parts[i])) {
      ParseShortNumber(parts[i]);
    }
  }

  lemma {:induction false} ParseShortNumber(p: string)
    requires AllDigits(p) && 1 <= |p| <= 3
    ensures ParseInt64(p) == Ok(DigitsValue(p))
  {
    DigitsValueBound(p);
    PowMonotone(10, |p|, 3);
    assert Pow(10, 3) == 1000;
    assert IsDigit(p[0]);
  }

  predicate ZerosFirst(a: seq<int>, d: nat)
    requires d <= |a|
  {
    forall i :: 0 <= i < d ==> a[i] == 0
  }

  /** Newer when aligned on the right: a longer list is the newer one, unless it starts with as many zeros as
      it is longer and what remains is not. */
  predicate NewerFromRight(a: seq<int>, b: seq<int>) {
    if |a| <= |b| then
      var d := |b| - |a|; ZerosFirst(b, d) && Newer(a, b[d..])
    else
      var d := |a| - |b|; !ZerosFirst(a, d) || Newer(a[d..], b)
  }

  predicate NoneNegative(a: seq<int>) {
    forall i :: 0 <= i < |a| ==> a[i] >= 0
  }

  /** The shorter list, led by zeros, is newer exactly when the longer one is led by as many and the rest is
      older; and the two coincide exactly when the rest does. */
  lemma {:induction false} NewerThanLonger(a: seq<int>, b: seq<int>)
    requires |a| <= |b| && NoneNegative(b)
    ensures var d := |b| - |a|;
            && (Newer(LeadingZeros(a, |b|), b) <==> ZerosFirst(b, d) && Newer(a, b[d..]))
            && (LeadingZeros(a, |b|) == b <==> ZerosFirst(b, d) && a == b[d..])
    decreases |b|
  {
    var d, z := |b| - |a|, LeadingZeros(a, |b|);
    if d == 0 {
      assert z == a && b[d..] == b;
    } else {
      var rest := b[1..];
      NewerThanLonger(a, rest);
      OneZeroMore(a, |rest|);
      assert b == [b[0]] + rest && rest[d - 1..] == b[d..];
      ZerosFirstStep(b, d);
    }
  }

  lemma {:induction false} OneZeroMore(a: seq<int>, n: nat)
    requires |a| <= n
    ensures LeadingZeros(a, n + 1) == [0] + LeadingZeros(a, n)
    ensures LeadingZeros(a, n + 1)[1..] == LeadingZeros(a, n)
  {
  }

  lemma {:induction false} ZerosFirstStep(b: seq<int>, d: nat)
    requires 0 < d <= |b|
    ensures ZerosFirst(b, d) <==> b[0] == 0 && ZerosFirst(b[1..], d - 1)
  {
    assert b == [b[0]] + b[1..];
  }

  lemma {:induction false} EqualLengthsTotal(a: seq<int>, b: seq<int>)
    requires |a| == |b|
    ensures Newer(a, b) <==> !Newer(b, a) && a != b
  {
    IncomparableIffPrefix(a, b);
    NewerAsymmetric(a, b);
  }

  lemma {:induction false} AlignedIsFromRight(a: seq<int>, b: seq<int>, length: nat)
    requires NoneNegative(a) && NoneNegative(b) && length == if |a| <= |b| then |b| else |a|
    ensures Newer(LeadingZeros(a, length), LeadingZeros(b, length)) <==> NewerFromRight(a, b)
  {
    if |a| <= |b| {
      assert LeadingZeros(b, length) == b;
      NewerThanLonger(a, b);
    } else {
      assert LeadingZeros(a, length) == a;
      NewerThanLonger(b, a);
      EqualLengthsTotal(a, LeadingZeros(b, length));
      EqualLengthsTotal(a[|a| - |b|..], b);
    }
  }

  lemma {:induction false} ZeroInFront(a: seq<int>, b: seq<int>)
    requires NoneNegative(a) && NoneNegative(b) && Newer(a, b)
    ensures Newer(a, [0] + b)
  {
    assert ([0] + b)[1..] == b;
    if a[0] == 0 {
      ZeroInFront(a[1..], b[1..]);
      assert b == [0] + b[1..];
    }
  }

  /** Zeros in front of the older list leave it older, and zeros in front of a list make it no newer. */
  lemma {:induction false} ZerosInFront(a: seq<int>, b: seq<int>, d: nat)
    requires NoneNegative(a) && NoneNegative(b) && d <= |b| && ZerosFirst(b, d)
    ensures Newer(a, b[d..]) ==> Newer(a, b)
    ensures Newer(b, a) ==> Newer(b[d..], a)
    decreases d
  {
    if d > 0 {
      var rest := b[1..];
      ZerosInFront(a, rest, d - 1);
      assert b == [0] + rest && rest[d - 1..] == b[d..];
      if Newer(a, rest) { ZeroInFront(a, rest); }
      if Newer(b, a) {
        ZeroInFront(rest, a[1..]);
        assert a == [0] + a[1..];
      }
    }
  }

  /** Where the two alignments differ: a longer older list only hides, a longer newer list only announces. */
  lemma {:induction false} AlignmentsDiffer(a: seq<int>, b: seq<int>)
    requires NoneNegative(a) && NoneNegative(b)
    ensures |a| <= |b| && NewerFromRight(a, b) ==> Newer(a, b)
    ensures |a| >= |b| && Newer(a, b) ==> NewerFromRight(a, b)
  {
    if |a| <= |b| {
      if ZerosFirst(b, |b| - |a|) { ZerosInFront(a, b, |b| - |a|); }
    } else if ZerosFirst(a, |a| - |b|) {
      ZerosInFront(b, a, |a| - |b|);
    }
  }

  /** What CheckUpdate answers for dotted versions of any two lengths. */
  lemma {:induction false} CountsDecideUpdate(c: string, n: string)
    requires Dotted(c) && Dotted(n) && UpdateAvailable(c, n).Ok?
    ensures UpdateAvailable(c, n) == Ok(NewerFromRight(Values(Split(n, "."), 3), Values(Split(c, "."), 3)))
  {
    var vc, vn := Values(Split(c, "."), 3), Values(Split(n, "."), 3);
    ValuesBelow(Split(c, "."), 3);
    ValuesBelow(Split(n, "."), 3);
    var length := if |vn| <= |vc| then |vc| else |vn|;
    KeysAlignRight(c, n, 3, length);
    AlignedIsFromRight(vn, vc, length);
  }

  /** When the two algorithms disagree, for dotted versions of any lengths. If the current version is the longer
      one: exactly on updates hidden from CheckUpdate, newer from the left but not from the right. If the new
      version is: exactly on updates it announces, newer from the right but not from the left. */
  lemma {:induction false} VersionOrdersDisagree(c: string, n: string)
    requires Dotted(c) && Dotted(n) && UpdateAvailable(c, n).Ok?
    ensures var vc, vn := Values(Split(c, "."), 3), Values(Split(n, "."), 3);
            && UpToDate(n, c) == Ok(Newer(vn, vc))
            && (UpdateAvailable(c, n) != UpToDate(n, c) <==>
                if |vn| <= |vc| then Newer(vn, vc) && !NewerFromRight(vn, vc)
                else NewerFromRight(vn, vc) && !Newer(vn, vc))
  {
    var vc, vn := Values(Split(c, "."), 3), Values(Split(n, "."), 3);
    DottedLexemes(c);
    DottedLexemes(n);
    UpToDateIsNewer(n, c);
    CountsDecideUpdate(c, n);
    ValuesBelow(Split(c, "."), 3);
    ValuesBelow(Split(n, "."), 3);
    AlignmentsDiffer(vn, vc);
  }

  /** On dotted versions with equally many components the two algorithms decide the same order whenever
      the keys can be read, which up to six components they always can. */
  lemma {:induction false} VersionOrdersAgree(c: string, n: string)
    requires Dotted(c) && Dotted(n) && |Split(c, ".")| == |Split(n, ".")|
    ensures UpdateAvailable(c, n).Ok? ==> UpdateAvailable(c, n) == UpToDate(n, c)
    ensures |Split(c, ".")| <= 6 ==> UpdateAvailable(c, n).Ok?
    ensures UpdateAvailable(c, n).Ok? <==> Key(c) <= MAX_INT64 && Key(n) <= MAX_INT64
  {
    KeyReadable(c);
    KeyReadable(n);
    if |Split(c, ".")| <= 6 {
      SixComponentsFit(c);
      SixComponentsFit(n);
    }
    if UpdateAvailable(c, n).Ok? {
      VersionOrdersDisagree(c, n);
      SameFromRight(Values(Split(n, "."), 3), Values(Split(c, "."), 3));
    }
  }

  lemma {:induction false} KeyReadable(s: string)
    requires Dotted(s)
    ensures VersionKey(s, 3).Ok? <==> Key(s) <= MAX_INT64
  {
    KeyIsHorner(s, 3);
    assert Pow(10, 3) == 1000;
  }

  lemma {:induction false} SameFromRight(a: seq<int>, b: seq<int>)
    requires |a| == |b|
    ensures NewerFromRight(a, b) <==> Newer(a, b)
  {
    assert b[0..] == b;
  }

  /** For example from 1.0 version 2 is the newer one only for `IsVersionUpToDate`, and from 2 version 1.0 is an
      update only for `CheckUpdate`. */
  lemma {:induction false} OneDotZeroHidesTwo()
    ensures UpdateAvailable("1.0", "2") == Ok(false) && UpToDate("2", "1.0") == Ok(true)
    ensures UpdateAvailable("2", "1.0") == Ok(true) && UpToDate("1.0", "2") == Ok(false)
  {
    LongerHidesAndAnnounces('1', '2');
  }

  lemma {:induction false} LongerHidesAndAnnounces(x: char, y: char)
    requires IsDigit(x) && IsDigit(y) && '0' < x < y
    ensures UpdateAvailable([x, '.', '0'], [y]) == Ok(false) && UpToDate([y], [x, '.', '0']) == Ok(true)
    ensures UpdateAvailable([y], [x, '.', '0']) == Ok(true) && UpToDate([x, '.', '0'], [y]) == Ok(false)
  {
    LongAndShort(x, y);
    OneDirection([x, '.', '0'], [y]);
    OneDirection([y], [x, '.', '0']);
    TwoAgainstOne((x - '0') as int, (y - '0') as int);
  }

  lemma {:induction false} LongAndShort(x: char, y: char)
    requires IsDigit(x) && IsDigit(y)
    ensures Dotted([x, '.', '0']) && Values(Split([x, '.', '0'], "."), 3) == [(x - '0') as int, 0]
    ensures Dotted([y]) && Values(Split([y], "."), 3) == [(y - '0') as int]
  {
    SplitOneDotZero(x);
    SplitOneDigit(y);
    SingleDigits([[x], ['0']]);
    SingleDigits([[y]]);
  }

  lemma {:induction false} SingleDigits(parts: seq<string>)
    requires forall i :: 0 <= i < |parts| ==> |parts[i]| == 1 && IsDigit(parts[i][0])
    ensures Fits(parts, 3) && "" !in parts
    ensures forall i :: 0 <= i < |parts| ==> Values(parts, 3)[i] == (parts[i][0] - '0') as int
  {
    forall i | 0 <= i < |parts| ensures DigitsValue(parts[i]) == (parts[i][0] - '0') as int {
      DigitValue(parts[i][0]);
      assert parts[i] == [parts[i][0]];
    }
  }

  lemma {:induction false} OneDirection(c: string, n: string)
    requires Dotted(c) && Dotted(n) && |Split(c, ".")| <= 6 && |Split(n, ".")| <= 6
    ensures var vc, vn := Values(Split(c, "."), 3), Values(Split(n, "."), 3);
            UpdateAvailable(c, n) == Ok(NewerFromRight(vn, vc)) && UpToDate(n, c) == Ok(Newer(vn, vc))
  {
    SixComponentsFit(c);
    SixComponentsFit(n);
    CountsDecideUpdate(c, n);
    VersionOrdersDisagree(c, n);
  }

  lemma {:induction false} TwoAgainstOne(x: int, y: int)
    requires 0 < x < y
    ensures Newer([y], [x, 0]) && !Newer([x, 0], [y])
    ensures NewerFromRight([x, 0], [y]) && !NewerFromRight([y], [x, 0])
  {
  }

  lemma {:induction false} SplitOneDotZero(x: char)
    requires x != '.'
    ensures Split([x, '.', '0'], ".") == [[x], ['0']]
  {
    SplitAnyUnique([x, '.', '0'], {'.'}, [[x], ['0']], ['.']);
    SplitOneChar([x, '.', '0'], '.');
  }

  lemma {:induction false} SplitOneDigit(y: char)
    requires y != '.'
    ensures Split([y], ".") == [[y]]
  {
    SplitAnyUnique([y], {'.'}, [[y]], []);
    SplitOneChar([y], '.');
  }

  lemma {:induction false} DigitValue(d: char)
    requires IsDigit(d)
    ensures DigitsValue([d]) == (d - '0') as int
  {
    assert DigitsValue([d][..0]) == 0;
  }
}
