/** The parts of Go's `strings`, `fmt` and `strconv` packages that the modelled code relies on.
    A Go string is taken as the sequence of its characters; every separator used by the program is an ASCII
    character, so the bytes of a string split at the same places. Only `TailLog` works on single bytes, one
    `char` for each. */
module Text {

  datatype Result<+T> = Ok(value: T) | Err(offender: string)

  // ----- strings.Split and strings.Join -----

  predicate OccursAt(s: string, sub: string, k: nat)
    requires k <= |s|
  {
    sub <= s[k..]
  }

  /** strings.Index: the first place where `sub` occurs, or -1. */
  function Index(s: string, sub: string): (i: int)
    ensures -1 <= i <= |s|
    ensures i >= 0 ==> i + |sub| <= |s| && OccursAt(s, sub, i)
    ensures forall k: nat :: k <= |s| && (i < 0 || k < i) ==> !OccursAt(s, sub, k)
  {
    if sub <= s then assert s[0..] == s; 0
    else if s == "" then -1
    else
      var j := Index(s[1..], sub);
      assert s[0..] == s;
      assert forall k: nat :: 0 < k <= |s| ==> s[k..] == s[1..][k - 1..];
      assert forall k: nat :: 0 < k <= |s| ==> OccursAt(s, sub, k) == OccursAt(s[1..], sub, k - 1);
      if j < 0 then -1 else j + 1
  }

  /** Nothing is left after strings.TrimSpace. */
  predicate Blank(s: string) {
    forall i :: 0 <= i < |s| ==> IsSpace(s[i])
  }

  /** unicode.IsSpace */
  predicate IsSpace(c: char) {
    c == ' ' || '\t' <= c <= '\r' || '\U{2000}' <= c <= '\U{200A}' ||
    c in {'\U{85}', '\U{A0}', '\U{1680}', '\U{2028}', '\U{2029}', '\U{202F}', '\U{205F}', '\U{3000}'}
  }

  predicate Contains(s: string, sub: string) {
    exists k: nat | k <= |s| :: OccursAt(s, sub, k)
  }

  predicate Around(s: string, a: string, sub: string, b: string) {
    s == a + sub + b
  }

  lemma {:induction false} ContainsAround(s: string, sub: string)
    ensures Contains(s, sub) <==> exists a, b :: Around(s, a, sub, b)
  {
    if Contains(s, sub) {
      var k: nat :| k <= |s| && OccursAt(s, sub, k);
      assert s[k..][..|sub|] == sub;
      assert Around(s, s[..k], sub, s[k + |sub|..]);
    }
    if a, b :| Around(s, a, sub, b) {
      assert s[|a|..] == sub + b;
      assert OccursAt(s, sub, |a|);
    }
  }

  /** strings.Split: an empty separator explodes the string into its characters. */
  function Split(s: string, sep: string): (parts: seq<string>)
    ensures sep != "" ==> parts != []
    decreases |s|
  {
    if sep == "" then seq(|s|, i requires 0 <= i < |s| => [s[i]])
    else
      var i := Index(s, sep);
      if i < 0 then [s] else [s[..i]] + Split(s[i + |sep|..], sep)
  }

  function Join(parts: seq<string>, sep: string): string {
    if parts == [] then ""
    else if |parts| == 1 then parts[0]
    else parts[0] + sep + Join(parts[1..], sep)
  }

  /** Joining with the separator undoes splitting at it, for every non-empty separator. */
  lemma {:induction false} JoinSplit(s: string, sep: string)
    requires sep != ""
    ensures Join(Split(s, sep), sep) == s
    decreases |s|
  {
    var i := Index(s, sep);
    if i >= 0 {
      var rest := s[i + |sep|..];
      JoinSplit(rest, sep);
      JoinCons(s[..i], Split(rest, sep), sep);
      assert s[i..] == sep + rest;
      assert s[..i] + sep + rest == s;
    }
  }

  lemma {:induction false} JoinCons(head: string, tail: seq<string>, sep: string)
    requires tail != []
    ensures Join([head] + tail, sep) == head + sep + Join(tail, sep)
  {
    assert ([head] + tail)[1..] == tail;
  }

  // ----- one-pass splitting at a set of characters -----

  predicate FreeOf(s: string, seps: set<char>) {
    forall c :: c in s ==> c !in seps
  }

  /** One pass over `s`, cutting at every character of `seps`. */
  function SplitAny(s: string, seps: set<char>): (parts: seq<string>)
    ensures parts != []
  {
    if s == "" then [""]
    else
      var rest := SplitAny(s[1..], seps);
      if s[0] in seps then [""] + rest else PrependChar(s[0], rest)
  }

  /** Put a character in front of the first piece. */
  function PrependChar(c: char, parts: seq<string>): seq<string>
    requires parts != []
  {
    [[c] + parts[0]] + parts[1..]
  }

  lemma {:induction false} PrependConcat(x: char, a: seq<string>, b: seq<string>)
    requires a != []
    ensures PrependChar(x, a) + b == PrependChar(x, a + b)
    ensures [""] + a + b == [""] + (a + b)
  {
  }

  /** The separator characters of `s`, in order. */
  function SeparatorsOf(s: string, seps: set<char>): string {
    if s == "" then ""
    else if s[0] in seps then [s[0]] + SeparatorsOf(s[1..], seps)
    else SeparatorsOf(s[1..], seps)
  }

  function Interleave(parts: seq<string>, seps: string): string
    requires |parts| == |seps| + 1
  {
    if seps == "" then parts[0]
    else parts[0] + [seps[0]] + Interleave(parts[1..], seps[1..])
  }

  /** Splitting loses nothing but separators: no piece holds one, there is one more piece than there
      are separators, and putting the separators back between the pieces rebuilds the string. */
  lemma {:induction false} SplitAnyLossless(s: string, seps: set<char>)
    ensures |SplitAny(s, seps)| == |SeparatorsOf(s, seps)| + 1
    ensures Interleave(SplitAny(s, seps), SeparatorsOf(s, seps)) == s
    ensures forall p :: p in SplitAny(s, seps) ==> FreeOf(p, seps)
  {
    if s != "" {
      SplitAnyLossless(s[1..], seps);
      var rest, marks := SplitAny(s[1..], seps), SeparatorsOf(s[1..], seps);
      if s[0] in seps {
        assert ([""] + rest)[1..] == rest && ([s[0]] + marks)[1..] == marks;
      } else {
        InterleavePrepend(s[0], rest, marks);
        forall p | p in PrependChar(s[0], rest) ensures FreeOf(p, seps) {
          assert rest[0] in rest;
          assert p == [s[0]] + rest[0] || p in rest[1..];
        }
      }
    }
  }

  lemma {:induction false} InterleavePrepend(x: char, parts: seq<string>, marks: string)
    requires |parts| == |marks| + 1
    ensures Interleave(PrependChar(x, parts), marks) == [x] + Interleave(parts, marks)
  {
    assert PrependChar(x, parts)[1..] == parts[1..];
  }

  /** ... and it is the only way to do so: any separator-free pieces that interleave with separators
      to give `s` are the pieces of the one-pass split. */
  lemma {:induction false} SplitAnyUnique(s: string, seps: set<char>, parts: seq<string>, marks: string)
    requires |parts| == |marks| + 1
    requires forall p :: p in parts ==> FreeOf(p, seps)
    requires forall c :: c in marks ==> c in seps
    requires Interleave(parts, marks) == s
    ensures parts == SplitAny(s, seps)
    ensures marks == SeparatorsOf(s, seps)
    decreases |s|, |marks|
  {
    if parts[0] != "" {
      var shorter := [parts[0][1..]] + parts[1..];
      assert parts[0] in parts;
      assert parts[0] == [parts[0][0]] + parts[0][1..];
      assert shorter[1..] == parts[1..];
      assert s == [parts[0][0]] + Interleave(shorter, marks);
      assert s[1..] == Interleave(shorter, marks);
      forall p | p in shorter ensures FreeOf(p, seps) {
        if p != parts[0][1..] { assert p in parts[1..]; assert p in parts; }
      }
      SplitAnyUnique(s[1..], seps, shorter, marks);
      assert s[0] in parts[0] && s[0] !in seps;
      assert parts == [[s[0]] + shorter[0]] + shorter[1..];
    } else if marks != "" {
      assert s == [marks[0]] + Interleave(parts[1..], marks[1..]);
      assert s[1..] == Interleave(parts[1..], marks[1..]);
      assert marks[0] in marks;
      SplitAnyUnique(s[1..], seps, parts[1..], marks[1..]);
      assert parts == [""] + parts[1..];
      assert marks == [marks[0]] + marks[1..];
    } else {
      assert parts == [""];
    }
  }

  lemma {:induction false} SeparatorsAreSeparators(s: string, seps: set<char>)
    ensures forall c :: c in SeparatorsOf(s, seps) ==> c in seps
  {
    if s != "" { SeparatorsAreSeparators(s[1..], seps); }
  }

  lemma {:induction false} SplitAtFirst(s: string, c: char)
    requires s != "" && s[0] == c
    ensures Split(s, [c]) == [""] + Split(s[1..], [c])
  {
    assert [c] <= s;
    assert s[..0] == "";
  }

  lemma {:induction false} SplitPastFirst(s: string, c: char)
    requires s != "" && s[0] != c
    ensures Split(s, [c]) == PrependChar(s[0], Split(s[1..], [c]))
  {
    assert !([c] <= s);
    var j := Index(s[1..], [c]);
    if j >= 0 {
      assert s[..j + 1] == [s[0]] + s[1..][..j];
      assert s[j + 2..] == s[1..][j + 1..];
    } else {
      assert s == [s[0]] + s[1..];
    }
  }

  /** strings.Split with a one-character separator is the one-pass split at that character. */
  lemma {:induction false} SplitOneChar(s: string, c: char)
    ensures Split(s, [c]) == SplitAny(s, {c})
    decreases |s|
  {
    if s != "" {
      SplitOneChar(s[1..], c);
      if s[0] == c { SplitAtFirst(s, c); } else { SplitPastFirst(s, c); }
    }
  }

  // ----- decimal numbers -----

  predicate IsDigit(c: char) {
    '0' <= c <= '9'
  }

  predicate AllDigits(s: string) {
    forall i :: 0 <= i < |s| ==> IsDigit(s[i])
  }

  function DigitsValue(s: string): nat
    requires AllDigits(s)
  {
    if s == "" then 0 else 10 * DigitsValue(s[..|s| - 1]) + (s[|s| - 1] - '0') as int
  }

  const MAX_INT64: int := 0x7FFF_FFFF_FFFF_FFFF

  /** strconv.Atoi and strconv.ParseInt(_, 10, 64) on a 64-bit machine: an optional sign, at least one
      digit, nothing else, and a value that fits. */
  function ParseInt64(s: string): (r: Result<int>)
    ensures r.Ok? ==> -MAX_INT64 - 1 <= r.value <= MAX_INT64
    ensures r.Err? ==> r.offender == s
  {
    var signed := s != "" && (s[0] == '+' || s[0] == '-');
    var digits := if signed then s[1..] else s;
    if digits == "" || !AllDigits(digits) then Err(s)
    else
      var magnitude: int := DigitsValue(digits);
      var v := if signed && s[0] == '-' then -magnitude else magnitude;
      if -MAX_INT64 - 1 <= v <= MAX_INT64 then Ok(v) else Err(s)
  }

  function Pow(base: nat, exponent: nat): nat {
    if exponent == 0 then 1 else base * Pow(base, exponent - 1)
  }

  lemma {:induction false} PowAdd(base: nat, m: nat, n: nat)
    ensures Pow(base, m + n) == Pow(base, m) * Pow(base, n)
  {
    if m != 0 {
      PowAdd(base, m - 1, n);
      assert base * (Pow(base, m - 1) * Pow(base, n)) == (base * Pow(base, m - 1)) * Pow(base, n);
    }
  }

  lemma {:induction false} DigitsValueBound(s: string)
    requires AllDigits(s)
    ensures DigitsValue(s) < Pow(10, |s|)
  {
    if s != "" {
      DigitsValueBound(s[..|s| - 1]);
    }
  }

  /** Concatenating digit strings shifts the first by the length of the second. */
  lemma {:induction false} DigitsValueConcat(s: string, t: string)
    requires AllDigits(s) && AllDigits(t)
    ensures AllDigits(s + t)
    ensures DigitsValue(s + t) == DigitsValue(s) * Pow(10, |t|) + DigitsValue(t)
  {
    if t == "" {
      assert s + t == s;
    } else {
      var u := t[..|t| - 1];
      DigitsValueConcat(s, u);
      assert (s + t)[..|s + t| - 1] == s + u;
      assert DigitsValue(s + t) == 10 * DigitsValue(s + u) + (t[|t| - 1] - '0') as int;
      TenTimes(DigitsValue(s), Pow(10, |u|));
    }
  }

  lemma {:induction false} TenTimes(x: nat, y: nat)
    ensures 10 * (x * y) == x * (10 * y)
  {
  }
}
