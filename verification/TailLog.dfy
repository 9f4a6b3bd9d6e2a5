/** `tailLog` of `iotit.go`: print the last lines of the log file. */
module TailLog {
  import opened Text

  datatype File = Missing | Contents(bytes: string)

  function Zeros(n: nat): string {
    seq(n, _ => '\0')
  }

  /** File.ReadAt: fill a buffer of `length` bytes from `offset`; what the file does not provide stays
      zero, and end of file is reported exactly when the buffer was not filled. */
  function ReadAt(bytes: string, offset: nat, length: nat): (string, bool) {
    if offset + length <= |bytes| then (bytes[offset..offset + length], false)
    else
      var got := if offset <= |bytes| then bytes[offset..] else "";
      (got + Zeros(length - |got|), true)
  }

  /** The number of newlines at positions `lo` up to, and not including, `hi`. */
  function Newlines(bytes: string, lo: nat, hi: nat): nat
    requires hi <= |bytes|
    decreases hi - lo
  {
    if lo >= hi then 0 else (if bytes[lo] == '\n' then 1 else 0) + Newlines(bytes, lo + 1, hi)
  }

  /** `start` follows the `k`-th newline from the end, or is the beginning of the file when there are
      fewer; a newline in the last byte and one in the first byte do not count. */
  predicate TailStart(bytes: string, k: nat, start: nat)
    requires start < |bytes|
  {
    if start == 0 then Newlines(bytes, 1, |bytes| - 1) < k
    else start > 1 && bytes[start - 1] == '\n' && Newlines(bytes, start, |bytes| - 1) + 1 == k
  }

  lemma {:induction false} ReadByte(bytes: string, p: nat)
    requires p < |bytes|
    ensures ReadAt(bytes, p, 1) == ([bytes[p]], false)
  {
    assert bytes[p..p + 1] == [bytes[p]];
  }

  /** The scan has read every byte behind `offset` once. The newline in the last byte is not counted; the read
      position is the newline that was counted last. */
  ghost predicate Scan(data: string, numLines: int, numNewLines: int, offset: int, readPos: int, bytesRead: int) {
    && bytesRead == -offset && offset < 0
    && if offset == -1 then numNewLines == 0 && readPos == 0
       else
         && 0 <= |data| + offset && numNewLines == Newlines(data, |data| + offset + 1, |data| - 1) <= numLines
         && (numNewLines > 0 && numNewLines == numLines ==>
               readPos == |data| + offset + 1 && 0 < readPos < |data| - 1 && data[readPos] == '\n')
  }

  /** One more byte that is not the first one of the file. */
  lemma {:induction false} ScanStep(data: string, numLines: int, numNewLines: int, offset: int, readPos: int,
                                    bytesRead: int)
    requires Scan(data, numLines, numNewLines, offset, readPos, bytesRead) && numNewLines < numLines
    requires |data| + offset > 0
    ensures var p := |data| + offset;
            if offset != -1 && data[p] == '\n' then
              Scan(data, numLines, numNewLines + 1, offset - 1, p, bytesRead + 1)
            else Scan(data, numLines, numNewLines, offset - 1, readPos, bytesRead + 1)
  {
  }

  /** Where the last read starts: at the beginning of the file, after the newline due, or, for a negative
      number of lines, at the second byte. */
  ghost predicate ReadFrom(data: string, numLines: int, start: int, bytesRead: int) {
    if numLines < 0 then start == 1 == bytesRead
    else
      && numLines > 0 && 0 <= start < |data| && TailStart(data, numLines, start)
      && bytesRead == if start == 0 then |data| else |data| - start + 2
  }

  lemma {:induction false} ScanEnds(data: string, numLines: int, numNewLines: int, offset: int, readPos: int,
                                    bytesRead: int)
    requires Scan(data, numLines, numNewLines, offset, readPos, bytesRead)
    requires numLines != 0
    ensures numNewLines > numLines - 1 ==> ReadFrom(data, numLines, readPos + 1, bytesRead)
    ensures numNewLines <= numLines - 1 && |data| + offset == 0 ==> ReadFrom(data, numLines, 0, bytesRead)
  {
    if offset == -1 && |data| == 1 && numLines > 0 {
      assert Newlines(data, 1, 0) == 0;
    }
  }

  /** The buffer is longer than what is left of the file, so the read ends at the end of the file. */
  lemma {:induction false} LastRead(data: string, numLines: int, start: int, bytesRead: int)
    requires ReadFrom(data, numLines, start, bytesRead)
    ensures start >= 0 && bytesRead >= 0
    ensures numLines > 0 ==>
              ReadAt(data, start, bytesRead + 1) == (data[start..] + Zeros(if start == 0 then 1 else 3), true)
    ensures numLines < 0 ==>
              var (b, eof) := ReadAt(data, start, bytesRead + 1);
              (eof <==> |data| < 3) && (eof ==> b == if |data| < 2 then Zeros(2) else [data[1]] + Zeros(1))
  {
    if numLines < 0 && |data| == 2 { assert data[1..] == [data[1]]; }
  }

  method TailLog(file: File, numLines: int) returns (printed: string, ok: bool)
    ensures !ok ==> printed == ""
    ensures numLines == 0 || file.Missing? ==> !ok
    ensures numLines > 0 && file.Contents? ==> (ok <==> file.bytes != "")
    ensures numLines > 0 && ok ==>
              exists start :: 0 <= start < |file.bytes| && TailStart(file.bytes, numLines, start) &&
                              printed == file.bytes[start..] + if start == 0 then "\0" else "\0\0\0"
    ensures numLines < 0 && file.Contents? ==> (ok <==> |file.bytes| < 3)
    ensures numLines < 0 && ok ==>
              printed == if |file.bytes| < 2 then "\0\0" else [file.bytes[1], '\0']
  {
    printed, ok := "", false;
    if numLines == 0 {
      return;
    }
    if file.Missing? {
      return;
    }
    var data := file.bytes;
    var numNewLines := 0;
    var offset := -1;
    var finalReadStartPos := 0;
    var bytesRead := 1;
    while numNewLines <= numLines - 1
      invariant Scan(data, numLines, numNewLines, offset, finalReadStartPos, bytesRead)
      decreases |data| + offset + 1
    {
      ScanEnds(data, numLines, numNewLines, offset, finalReadStartPos, bytesRead);
      var startPos := |data| + offset;
      if startPos < 0 {
        return;
      }
      if startPos == 0 {
        finalReadStartPos := -1;
        break;
      }
      var (b, eof) := ReadAt(data, startPos, 1);
      ReadByte(data, startPos);
      ScanStep(data, numLines, numNewLines, offset, finalReadStartPos, bytesRead);
      bytesRead := bytesRead + 1;
      if eof {
        return;
      }
      if offset == -1 && b == "\n" {
        offset := offset - 1;
        continue;
      }
      if b == "\n" {
        numNewLines := numNewLines + 1;
        finalReadStartPos := startPos;
      }
      offset := offset - 1;
    }
    if finalReadStartPos != -1 {
      ScanEnds(data, numLines, numNewLines, offset, finalReadStartPos, bytesRead);
    }
    LastRead(data, numLines, finalReadStartPos + 1, bytesRead);
    var (b, eof) := ReadAt(data, finalReadStartPos + 1, bytesRead + 1);
    if eof {
      assert Zeros(1) == "\0" && Zeros(2) == "\0\0" && Zeros(3) == "\0\0\0";
      return b, true;
    }
  }

  // ----- the last lines -----

  lemma {:induction false} NewlinesShrink(bytes: string, p: nat, q: nat, hi: nat)
    requires p <= q <= hi <= |bytes|
    ensures Newlines(bytes, p, hi) >= Newlines(bytes, q, hi)
    ensures p < q && bytes[q - 1] == '\n' ==> Newlines(bytes, p, hi) > Newlines(bytes, q, hi)
    decreases q - p
  {
    if p < q { NewlinesShrink(bytes, p + 1, q, hi); }
  }

  /** There is only one such start, so the output of `tailLog` is settled. */
  lemma {:induction false} TailStartUnique(bytes: string, k: nat, s: nat, t: nat)
    requires s < |bytes| && t < |bytes| && TailStart(bytes, k, s) && TailStart(bytes, k, t)
    ensures s == t
  {
    var hi := |bytes| - 1;
    if s < t {
      NewlinesShrink(bytes, if s == 0 then 1 else s, t, hi);
    } else if t < s {
      NewlinesShrink(bytes, if t == 0 then 1 else t, s, hi);
    }
  }

  /** The text of the lines; a newline at the very end closes the last line. */
  function Body(bytes: string): string
    requires bytes != ""
  {
    if bytes[|bytes| - 1] == '\n' then bytes[..|bytes| - 1] else bytes
  }

  function LastOf(text: string, k: nat): string {
    var lines := Split(text, "\n");
    Join(if |lines| <= k then lines else lines[|lines| - k..], "\n")
  }

  /** What `tail -n k` is for: the last `k` lines, or all of them. */
  function LastLines(bytes: string, k: nat): string
    requires bytes != ""
  {
    LastOf(Body(bytes), k) + bytes[|Body(bytes)|..]
  }

  lemma {:induction false} LineCount(s: string, lo: nat, hi: nat)
    requires lo <= hi <= |s|
    ensures |SplitAny(s[lo..hi], {'\n'})| == Newlines(s, lo, hi) + 1
    decreases hi - lo
  {
    if lo < hi {
      LineCount(s, lo + 1, hi);
      assert s[lo..hi][1..] == s[lo + 1..hi];
    }
  }

  lemma {:induction false} SplitAtNewline(a: string, b: string)
    ensures SplitAny(a + "\n" + b, {'\n'}) == SplitAny(a, {'\n'}) + SplitAny(b, {'\n'})
  {
    var s := a + "\n" + b;
    if a == "" {
      assert s[1..] == b;
    } else {
      SplitAtNewline(a[1..], b);
      assert s[1..] == a[1..] + "\n" + b;
      PrependConcat(a[0], SplitAny(a[1..], {'\n'}), SplitAny(b, {'\n'}));
    }
  }

  lemma {:induction false} LinesAfterNewline(a: string, b: string, k: nat)
    requires k == |SplitAny(b, {'\n'})|
    ensures LastOf(a + "\n" + b, k) == b
  {
    SplitOneChar(a + "\n" + b, '\n');
    SplitAtNewline(a, b);
    SplitOneChar(b, '\n');
    JoinSplit(b, "\n");
    var front, last := SplitAny(a, {'\n'}), SplitAny(b, {'\n'});
    assert (front + last)[|front|..] == last;
  }

  lemma {:induction false} BodyLines(bytes: string, lo: nat)
    requires bytes != "" && lo <= |Body(bytes)|
    ensures |SplitAny(Body(bytes)[lo..], {'\n'})| == Newlines(bytes, lo, |bytes| - 1) + 1
  {
    var body := Body(bytes);
    LineCount(bytes, lo, |body|);
    assert body[lo..] == bytes[lo..|body|];
    if |body| == |bytes| && lo < |bytes| { LastByteIsNoNewline(bytes, lo); }
  }

  lemma {:induction false} LastByteIsNoNewline(bytes: string, lo: nat)
    requires lo < |bytes| && bytes[|bytes| - 1] != '\n'
    ensures Newlines(bytes, lo, |bytes|) == Newlines(bytes, lo, |bytes| - 1)
    decreases |bytes| - lo
  {
    if lo + 1 < |bytes| { LastByteIsNoNewline(bytes, lo + 1); }
  }

  /** Everything after a newline inside the body is a number of whole last lines. */
  lemma {:induction false} SuffixIsLastLines(bytes: string, start: nat)
    requires 1 <= start < |bytes| && bytes[start - 1] == '\n'
    ensures bytes[start..] == LastLines(bytes, Newlines(bytes, start, |bytes| - 1) + 1)
  {
    var body := Body(bytes);
    var a, b := body[..start - 1], body[start..];
    assert body == a + "\n" + b;
    BodyLines(bytes, start);
    LinesAfterNewline(a, b, Newlines(bytes, start, |bytes| - 1) + 1);
    assert bytes[start..] == b + bytes[|body|..];
  }

  lemma {:induction false} WholeFileIsLastLines(bytes: string, k: nat)
    requires bytes != "" && Newlines(bytes, 0, |bytes| - 1) < k
    ensures bytes == LastLines(bytes, k)
  {
    var body := Body(bytes);
    BodyLines(bytes, 0);
    assert body[0..] == body;
    SplitOneChar(body, '\n');
    JoinSplit(body, "\n");
  }

  /** The file begins with an empty line, and the counted newlines after it are one short of `k`. */
  predicate EmptyFirstLineDue(bytes: string, k: nat) {
    |bytes| > 1 && bytes[0] == '\n' && Newlines(bytes, 1, |bytes| - 1) + 1 == k
  }

  /** The bytes that `tailLog` prints are exactly the last `k` lines, except when the file begins with an
      empty line that would be the first one cut off: the newline at byte 0 is overlooked, and that line
      is printed too. */
  lemma {:induction false} TailIsLastLines(bytes: string, k: nat, start: nat)
    requires k > 0 && start < |bytes| && TailStart(bytes, k, start)
    ensures bytes[start..] == LastLines(bytes, k) <==> !EmptyFirstLineDue(bytes, k)
  {
    if start > 0 {
      SuffixIsLastLines(bytes, start);
      NewlinesShrink(bytes, 1, start, |bytes| - 1);
    } else if EmptyFirstLineDue(bytes, k) {
      SuffixIsLastLines(bytes, 1);
      assert |bytes[0..]| > |bytes[1..]|;
    } else {
      WholeFileIsLastLines(bytes, k);
      assert bytes[0..] == bytes;
    }
  }

  /** For example, of a file with an empty line and one more, the last line comes out as both. */
  lemma {:induction false} EmptyLineTooMany(x: char)
    requires x != '\n'
    ensures var bytes := ['\n', x, '\n'];
            && TailStart(bytes, 1, 0) && LastLines(bytes, 1) == [x, '\n']
            && bytes[0..] == ['\n', x, '\n'] != LastLines(bytes, 1)
  {
    var bytes := ['\n', x, '\n'];
    SuffixIsLastLines(bytes, 1);
    assert Newlines(bytes, 1, 2) == 0;
    assert bytes[1..] == [x, '\n'];
  }
}
