/** Job-name normalization (store/normalize.go).

Strings stand for Go's byte strings: every character the loop tests is ASCII, so
no multi-byte sequence can be split by it. */
module Names {
  predicate IsSeparator(c: char) {
    c == '-' || c == '_' || c == ':' || c == '/' || c == '.'
  }

  predicate IsDigit(c: char) {
    '0' <= c <= '9'
  }

  predicate IsHex(c: char) {
    IsDigit(c) || 'a' <= c <= 'f' || 'A' <= c <= 'F'
  }

  predicate HasDigit(s: string) {
    exists i :: 0 <= i < |s| && IsDigit(s[i])
  }

  predicate AllHex(s: string) {
    forall i :: 0 <= i < |s| ==> IsHex(s[i])
  }

  /** A segment reads as an identifier: it holds a digit, or is a long hex run. */
  predicate Identifying(segment: string) {
    HasDigit(segment) || (AllHex(segment) && |segment| >= 8)
  }

  function Mask(segment: string): string {
    if Identifying(segment) then "*" else segment
  }

  function CountDigits(s: string): (n: nat)
    ensures n > 0 <==> HasDigit(s)
  {
    if |s| == 0 then 0
    else
      var m := |s| - 1;
      assert forall i :: 0 <= i < m ==> s[..m][i] == s[i];
      CountDigits(s[..m]) + if IsDigit(s[m]) then 1 else 0
  }

  function CountHex(s: string): (n: nat)
    ensures n <= |s|
    ensures n == |s| <==> AllHex(s)
  {
    if |s| == 0 then 0
    else
      var m := |s| - 1;
      assert forall i :: 0 <= i < m ==> s[..m][i] == s[i];
      CountHex(s[..m]) + if IsHex(s[m]) then 1 else 0
  }

  method MaskSegment(segment: string) returns (out: string)
    ensures out == Mask(segment)
  {
    if segment == "" {
      return segment;
    }
    var digits, hex := 0, 0;
    for i := 0 to |segment|
      invariant digits == CountDigits(segment[..i])
      invariant hex == CountHex(segment[..i])
    {
      assert segment[..i + 1][..i] == segment[..i];
      var c := segment[i];
      if '0' <= c <= '9' {
        digits := digits + 1;
        hex := hex + 1;
      } else if 'a' <= c <= 'f' || 'A' <= c <= 'F' {
        hex := hex + 1;
      }
    }
    assert segment[..|segment|] == segment;
    if digits > 0 {
      return "*";
    }
    if hex == |segment| && |segment| >= 8 {
      return "*";
    }
    return segment;
  }

  // ---- Splitting and rejoining -------------------------------------------

  /** A segment together with the separator that closed it. */
  datatype Piece = Piece(text: string, sep: char)

  datatype Pieces = Pieces(closed: seq<Piece>, open: string)

  function Split(s: string): Pieces {
    if |s| == 0 then Pieces([], "")
    else
      var c, front := s[|s| - 1], Split(s[..|s| - 1]);
      if IsSeparator(c) then Pieces(front.closed + [Piece(front.open, c)], "")
      else Pieces(front.closed, front.open + [c])
  }

  function Render(closed: seq<Piece>): string {
    if |closed| == 0 then ""
    else
      var last := closed[|closed| - 1];
      Render(closed[..|closed| - 1]) + last.text + [last.sep]
  }

  function Rejoin(p: Pieces): string {
    Render(p.closed) + p.open
  }

  function MaskClosed(closed: seq<Piece>): (out: seq<Piece>)
    ensures |out| == |closed|
    ensures forall i :: 0 <= i < |closed| ==> out[i] == Piece(Mask(closed[i].text), closed[i].sep)
  {
    if |closed| == 0 then []
    else
      var last := closed[|closed| - 1];
      MaskClosed(closed[..|closed| - 1]) + [Piece(Mask(last.text), last.sep)]
  }

  function MaskPieces(p: Pieces): Pieces {
    Pieces(MaskClosed(p.closed), Mask(p.open))
  }

  /** The pattern of a name: split it, mask every segment, rejoin with the same
      separators. */
  function NormalizeName(name: string): string {
    Rejoin(MaskPieces(Split(name)))
  }

  /** The byte loop of the source: one pass that flushes a masked segment at every
      separator and writes the separator itself one flush later. */
  method Normalize(name: string) returns (result: string)
    ensures result == NormalizeName(name)
  {
    if name == "" {
      return "";
    }
    var out, segment := "", "";
    var separator, hasSep := '-', false;
    for i := 0 to |name|
      invariant Flushed(name[..i], out, segment, separator, hasSep)
    {
      assert name[..i + 1][..i] == name[..i];
      var c := name[i];
      if c == '-' || c == '_' || c == ':' || c == '/' || c == '.' {
        out := FlushSegment(name[..i], out, segment, separator, hasSep);
        SeparatorStep(name[..i + 1]);
        segment := "";
        separator, hasSep := c, true;
      } else {
        segment := segment + [c];
      }
    }
    assert name[..|name|] == name;
    result := FlushSegment(name, out, segment, separator, hasSep);
  }

  /** What the loop variables hold once `read` has been consumed. */
  ghost predicate Flushed(read: string, out: string, segment: string, separator: char, hasSep: bool) {
    var p := Split(read);
    && segment == p.open
    && hasSep == (|p.closed| > 0)
    && Render(MaskClosed(p.closed)) == if hasSep then out + [separator] else out
  }

  /** A separator closes the segment before it. */
  lemma SeparatorStep(read: string)
    requires |read| > 0 && read[|read| - 1] in "-_:/."
    ensures var m := |read| - 1; Flushed(read, NormalizeName(read[..m]), "", read[m], true)
  {
    var before, after := Split(read[..|read| - 1]), Split(read);
    assert after.closed[..|before.closed|] == before.closed;
    assert MaskClosed(after.closed)[..|before.closed|] == MaskClosed(before.closed);
  }

  method FlushSegment(ghost read: string, out: string, segment: string, separator: char, hasSep: bool)
    returns (flushed: string)
    requires Flushed(read, out, segment, separator, hasSep)
    ensures flushed == NormalizeName(read)
  {
    flushed := out;
    if hasSep {
      flushed := flushed + [separator];
    }
    var masked := MaskSegment(segment);
    flushed := flushed + masked;
  }

  // ---- What normalization promises ----------------------------------------

  ghost predicate SeparatorFree(s: string) {
    forall i :: 0 <= i < |s| ==> !IsSeparator(s[i])
  }

  ghost predicate WellSplit(p: Pieces) {
    && SeparatorFree(p.open)
    && forall i :: 0 <= i < |p.closed| ==> SeparatorFree(p.closed[i].text) && IsSeparator(p.closed[i].sep)
  }

  /** Splitting loses nothing and finds every separator. */
  lemma {:induction false} RejoinSplit(s: string)
    ensures Rejoin(Split(s)) == s && WellSplit(Split(s))
  {
    if |s| > 0 {
      var m := |s| - 1;
      RejoinSplit(s[..m]);
      assert s == s[..m] + [s[m]];
      if IsSeparator(s[m]) {
        assert Split(s).closed[..|Split(s).closed| - 1] == Split(s[..m]).closed;
      }
    }
  }

  lemma {:induction false} SplitAppend(s: string, tail: string)
    requires SeparatorFree(tail)
    ensures Split(s + tail) == Pieces(Split(s).closed, Split(s).open + tail)
    decreases |tail|
  {
    if |tail| == 0 {
      assert s + tail == s && Split(s).open + tail == Split(s).open;
    } else {
      var t := tail[..|tail| - 1];
      SplitAppend(s, t);
      assert (s + tail)[..|s + tail| - 1] == s + t;
      assert Split(s).open + t + [tail[|tail| - 1]] == Split(s).open + tail;
    }
  }

  /** Splitting inverts rejoining when no segment holds a separator. */
  lemma {:induction false} SplitRejoin(p: Pieces)
    requires WellSplit(p)
    ensures Split(Rejoin(p)) == p
    decreases |p.closed|
  {
    if |p.closed| == 0 {
      SplitAppend("", p.open);
      assert "" + p.open == p.open;
    } else {
      var m := |p.closed| - 1;
      var last := p.closed[m];
      var front := Pieces(p.closed[..m], last.text);
      SplitRejoin(front);
      var text := Rejoin(front) + [last.sep];
      assert text[..|text| - 1] == Rejoin(front);
      assert p.closed == p.closed[..m] + [last];
      SplitAppend(text, p.open);
      assert Rejoin(p) == text + p.open;
    }
  }

  lemma MaskIdempotent(segment: string)
    ensures Mask(Mask(segment)) == Mask(segment)
  {
    assert "*"[0] == '*';
  }

  lemma MaskPiecesIdempotent(p: Pieces)
    ensures MaskPieces(MaskPieces(p)) == MaskPieces(p)
  {
    MaskIdempotent(p.open);
    var once := MaskClosed(p.closed);
    forall i | 0 <= i < |once| ensures MaskClosed(once)[i] == once[i] {
      MaskIdempotent(p.closed[i].text);
    }
    assert MaskClosed(once) == once;
  }

  /** Normalizing masks the segments in place, keeping every separator; doing it
      again changes nothing. */
  lemma NormalizeIdempotent(name: string)
    ensures Split(NormalizeName(name)) == MaskPieces(Split(name))
    ensures NormalizeName(NormalizeName(name)) == NormalizeName(name)
  {
    var p := Split(name);
    RejoinSplit(name);
    SplitRejoin(MaskPieces(p));
    MaskPiecesIdempotent(p);
  }

  const DIGITS := "0123456789"
  const HEX_DIGITS := "0123456789abcdefABCDEF"

  /** A segment that looks generated: it shows a digit, or spells eight or more hexadecimal
      digits. */
  ghost predicate Generated(segment: string) {
    || (exists i :: 0 <= i < |segment| && segment[i] in DIGITS)
    || (|segment| >= 8 && forall i :: 0 <= i < |segment| ==> segment[i] in HEX_DIGITS)
  }

  lemma DigitIff(c: char)
    ensures IsDigit(c) <==> c in DIGITS
    ensures IsHex(c) <==> c in HEX_DIGITS
  {
    if IsDigit(c) {
      assert DIGITS[c as int - '0' as int] == c;
    }
    if 'a' <= c <= 'f' {
      assert HEX_DIGITS[c as int - 'a' as int + 10] == c;
    }
    if 'A' <= c <= 'F' {
      assert HEX_DIGITS[c as int - 'A' as int + 16] == c;
    }
    if IsDigit(c) {
      assert HEX_DIGITS[c as int - '0' as int] == c;
    }
  }

  lemma MaskIs(segment: string)
    ensures Mask(segment) == if Generated(segment) then "*" else segment
    ensures Mask(segment) == segment <==> !Generated(segment)
  {
    forall i | 0 <= i < |segment|
      ensures (IsDigit(segment[i]) <==> segment[i] in DIGITS) && (IsHex(segment[i]) <==> segment[i] in HEX_DIGITS)
    {
      DigitIff(segment[i]);
    }
  }

  /** Segment by segment: a generated one becomes "*", any other stays, and so does every
      separator. */
  lemma NormalizeSegments(name: string)
    ensures var before, after := Split(name), Split(NormalizeName(name));
      && |after.closed| == |before.closed|
      && (forall i :: 0 <= i < |before.closed| ==>
            && after.closed[i].text == (if Generated(before.closed[i].text) then "*" else before.closed[i].text)
            && after.closed[i].sep == before.closed[i].sep)
      && after.open == if Generated(before.open) then "*" else before.open
  {
    NormalizeIdempotent(name);
    var p := Split(name);
    MaskIs(p.open);
    forall i | 0 <= i < |p.closed|
      ensures Mask(p.closed[i].text) == if Generated(p.closed[i].text) then "*" else p.closed[i].text
    {
      MaskIs(p.closed[i].text);
    }
  }

  /** A name is its own pattern exactly when none of its segments looks generated. */
  lemma NormalizeKeepsIff(name: string)
    ensures var p := Split(name);
      NormalizeName(name) == name <==> !Generated(p.open) && forall i :: 0 <= i < |p.closed| ==> !Generated(p.closed[i].text)
  {
    var p := Split(name);
    RejoinSplit(name);
    NormalizeIdempotent(name);
    MaskIs(p.open);
    forall i | 0 <= i < |p.closed| ensures MaskClosed(p.closed)[i] == p.closed[i] <==> !Generated(p.closed[i].text) {
      MaskIs(p.closed[i].text);
    }
    if NormalizeName(name) == name {
      assert MaskPieces(p) == p;
    }
    if !Generated(p.open) && forall i :: 0 <= i < |p.closed| ==> !Generated(p.closed[i].text) {
      assert MaskClosed(p.closed) == p.closed;
    }
  }

  lemma {:induction false} MaskedRenderBounds(closed: seq<Piece>)
    requires forall i :: 0 <= i < |closed| ==> IsSeparator(closed[i].sep)
    ensures |closed| <= |Render(MaskClosed(closed))| <= |Render(closed)|
    ensures !HasDigit(Render(MaskClosed(closed)))
  {
    if |closed| > 0 {
      var m := |closed| - 1;
      MaskedRenderBounds(closed[..m]);
      assert MaskClosed(closed)[..m] == MaskClosed(closed[..m]);
      MaskHidesDigits(closed[m].text);
      NoDigitConcat(Mask(closed[m].text), [closed[m].sep]);
      var front := Render(MaskClosed(closed[..m]));
      NoDigitConcat(front, Mask(closed[m].text) + [closed[m].sep]);
      assert Render(MaskClosed(closed)) == front + (Mask(closed[m].text) + [closed[m].sep]);
    }
  }

  lemma MaskHidesDigits(segment: string)
    ensures !HasDigit(Mask(segment))
  {
    assert "*"[0] == '*';
  }

  lemma NoDigitConcat(a: string, b: string)
    requires !HasDigit(a) && !HasDigit(b)
    ensures !HasDigit(a + b)
  {
    assert forall i :: 0 <= i < |a + b| ==> (a + b)[i] == if i < |a| then a[i] else b[i - |a|];
  }

  /** A pattern is never longer than its name, never shows a digit, and is blank
      exactly when the name is.  The last clause is why "the pattern follows the
      name" (memory) and "the pattern fills while blank" (SQL) are one rule. */
  lemma NormalizeBounds(name: string)
    ensures |NormalizeName(name)| <= |name|
    ensures NormalizeName(name) == "" <==> name == ""
    ensures !HasDigit(NormalizeName(name))
  {
    var p := Split(name);
    RejoinSplit(name);
    MaskedRenderBounds(p.closed);
    MaskHidesDigits(p.open);
    NoDigitConcat(Render(MaskClosed(p.closed)), Mask(p.open));
  }
}
