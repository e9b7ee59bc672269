/** What the search box means (matching in store/memory/memory.go): every word of it must
occur in the id or the name, ignoring case. */
module Search {
  import opened Records
  import opened Filters
  import opened Patterns

  // ---- Words and the space around them ----------------------------------------------------------

  /** The characters that `strings.Fields` splits ASCII text at. */
  lemma SpaceIff(c: char)
    ensures IsSpace(c) <==> c in {' ', '\t', '\n', '\U{0B}', '\U{0C}', '\r'}
  {}

  predicate Blank(s: string) {
    forall i :: 0 <= i < |s| ==> IsSpace(s[i])
  }

  predicate Word(s: string) {
    |s| > 0 && forall i :: 0 <= i < |s| ==> !IsSpace(s[i])
  }

  /** Space before, between and after some words; only that between must not be empty. */
  ghost predicate Spaced(words: seq<string>, gaps: seq<string>) {
    && |gaps| == |words| + 1
    && (forall i :: 0 <= i < |words| ==> Word(words[i]))
    && (forall i :: 0 <= i < |gaps| ==> Blank(gaps[i]))
    && (forall i :: 0 < i < |words| ==> gaps[i] != "")
  }

  /** The text they make. */
  function Laid(words: seq<string>, gaps: seq<string>): string
    requires |gaps| == |words| + 1
  {
    if |words| == 0 then gaps[0]
    else
      var m := |words| - 1;
      Laid(words[..m], gaps[..m + 1]) + words[m] + gaps[m + 1]
  }

  lemma ScanChar(s: string, c: char)
    ensures ScanWords(s + [c]) == if IsSpace(c) then Scan(Fields(s), "") else ScanWords(s).(open := ScanWords(s).open + [c])
  {
    assert (s + [c])[..|s|] == s;
  }

  lemma {:induction false} ScanBlank(s: string, gap: string)
    requires Blank(gap)
    ensures ScanWords(s + gap) == if gap == "" then ScanWords(s) else Scan(Fields(s), "")
    decreases |gap|
  {
    if gap == "" {
      assert s + gap == s;
    } else {
      var g := gap[..|gap| - 1];
      ScanBlank(s, g);
      assert s + gap == (s + g) + [gap[|gap| - 1]];
      ScanChar(s + g, gap[|gap| - 1]);
    }
  }

  lemma LastCharacter(s: string, v: string, c: char)
    ensures s + (v + [c]) == (s + v) + [c]
  {}

  lemma {:induction false} ScanWord(s: string, w: string)
    requires forall i :: 0 <= i < |w| ==> !IsSpace(w[i])
    ensures ScanWords(s + w) == ScanWords(s).(open := ScanWords(s).open + w)
    decreases |w|
  {
    if w == "" {
      assert s + w == s && ScanWords(s).open + w == ScanWords(s).open;
    } else {
      var v, c := w[..|w| - 1], w[|w| - 1];
      ScanWord(s, v);
      assert w == v + [c];
      LastCharacter(s, v, c);
      ScanChar(s + v, c);
      LastCharacter(ScanWords(s).open, v, c);
    }
  }

  lemma ScanOneMore(before: string, words: seq<string>, w: string, gap: string)
    requires ScanWords(before) == Scan(words, "") && Word(w) && Blank(gap)
    ensures ScanWords(before + w + gap) == if gap == "" then Scan(words, w) else Scan(words + [w], "")
  {
    ScanWord(before, w);
    assert "" + w == w;
    ScanBlank(before + w, gap);
  }

  lemma FrontSpaced(words: seq<string>, gaps: seq<string>)
    requires Spaced(words, gaps) && |words| > 0
    ensures Spaced(words[..|words| - 1], gaps[..|words|])
    ensures |words| > 1 ==> gaps[..|words|][|words| - 1] != ""
  {}

  lemma {:induction false} LaidScan(words: seq<string>, gaps: seq<string>)
    requires Spaced(words, gaps)
    ensures ScanWords(Laid(words, gaps)) ==
      if words == [] || gaps[|words|] != "" then Scan(words, "")
      else Scan(words[..|words| - 1], words[|words| - 1])
    decreases |words|
  {
    if words == [] {
      ScanBlank("", gaps[0]);
      assert "" + gaps[0] == gaps[0];
    } else {
      var m := |words| - 1;
      var front, space := words[..m], gaps[..m + 1];
      FrontSpaced(words, gaps);
      LaidScan(front, space);
      ScanOneMore(Laid(front, space), front, words[m], gaps[m + 1]);
      assert front + [words[m]] == words;
    }
  }

  /** Words come back from any text they are spaced out in. */
  lemma FieldsOfLaid(words: seq<string>, gaps: seq<string>)
    requires Spaced(words, gaps)
    ensures Fields(Laid(words, gaps)) == words
  {
    LaidScan(words, gaps);
    assert words != [] ==> words[..|words| - 1] + [words[|words| - 1]] == words;
  }

  lemma OneWord(w: string)
    requires Word(w)
    ensures Fields(w) == [w]
  {
    FieldsOfLaid([w], ["", ""]);
    assert [w][..0] == [] && ["", ""][..1] == [""];
    assert Laid([], [""]) + w + "" == w;
  }

  /** And every text is its fields, spaced out: they are its maximal runs of other characters,
      in order. */
  lemma {:induction false} FieldsSpaced(s: string) returns (gaps: seq<string>)
    ensures Spaced(Fields(s), gaps) && Laid(Fields(s), gaps) == s
    ensures ScanWords(s).open != "" <==> Fields(s) != [] && gaps[|Fields(s)|] == ""
    decreases |s|
  {
    if |s| == 0 {
      gaps := [""];
    } else {
      var m := |s| - 1;
      var before := FieldsSpaced(s[..m]);
      assert s == s[..m] + [s[m]];
      gaps := OneMore(s[..m], ScanWords(s[..m]), before, s[m]);
    }
  }

  /** One more character: it widens the last gap, opens a word or grows the last one. */
  lemma OneMore(text: string, scan: Scan, gaps: seq<string>, c: char) returns (wider: seq<string>)
    requires Spaced(Close(scan), gaps) && Laid(Close(scan), gaps) == text
    requires scan.open != "" <==> Close(scan) != [] && gaps[|Close(scan)|] == ""
    ensures var next := if IsSpace(c) then Scan(Close(scan), "") else scan.(open := scan.open + [c]);
      && Spaced(Close(next), wider) && Laid(Close(next), wider) == text + [c]
      && (next.open != "" <==> Close(next) != [] && wider[|Close(next)|] == "")
  {
    if IsSpace(c) {
      wider := WidenGap(Close(scan), gaps, c);
    } else if scan.open == "" {
      wider := gaps + [""];
      OpenWord(scan.words, gaps, c);
      assert scan.open + [c] == [c];
    } else {
      wider := gaps;
      GrowWord(scan.words, scan.open, gaps, c);
    }
  }

  lemma WidenGap(words: seq<string>, gaps: seq<string>, c: char) returns (wider: seq<string>)
    requires Spaced(words, gaps) && IsSpace(c)
    ensures Spaced(words, wider) && Laid(words, wider) == Laid(words, gaps) + [c]
    ensures wider[|words|] != ""
  {
    var n := |words|;
    wider := gaps[n := gaps[n] + [c]];
    assert n > 0 ==> wider[..n] == gaps[..n];
  }

  lemma OpenWord(words: seq<string>, gaps: seq<string>, c: char)
    requires Spaced(words, gaps) && !IsSpace(c) && (words == [] || gaps[|words|] != "")
    ensures Spaced(words + [[c]], gaps + [""]) && Laid(words + [[c]], gaps + [""]) == Laid(words, gaps) + [c]
  {
    var more, wider := words + [[c]], gaps + [""];
    assert more[..|words|] == words && wider[..|words| + 1] == gaps;
    assert Laid(more, wider) == Laid(words, gaps) + [c] + "";
  }

  lemma GrowWord(words: seq<string>, open: string, gaps: seq<string>, c: char)
    requires Spaced(words + [open], gaps) && gaps[|words| + 1] == "" && !IsSpace(c)
    ensures Spaced(words + [open + [c]], gaps)
    ensures Laid(words + [open + [c]], gaps) == Laid(words + [open], gaps) + [c]
  {
    var all, more, n := words + [open], words + [open + [c]], |words|;
    assert Word(all[n]);
    forall i | 0 <= i < |more| ensures Word(more[i]) {
      if i < n { assert more[i] == all[i]; }
    }
    assert all[..n] == words && more[..n] == words;
    assert Laid(all, gaps) == Laid(words, gaps[..n + 1]) + open + "";
    assert Laid(more, gaps) == Laid(words, gaps[..n + 1]) + (open + [c]) + "";
  }

  // ---- Ignoring case ------------------------------------------------------------------------------

  const UPPER := "ABCDEFGHIJKLMNOPQRSTUVWXYZ"
  const LOWER := "abcdefghijklmnopqrstuvwxyz"

  /** The same character, or the two cases of one letter. */
  ghost predicate SameLetter(a: char, b: char) {
    a == b || exists n :: 0 <= n < 26 && ((a == UPPER[n] && b == LOWER[n]) || (a == LOWER[n] && b == UPPER[n]))
  }

  lemma Alphabet(n: int)
    requires 0 <= n < 26
    ensures UPPER[n] as int == 'A' as int + n && LOWER[n] as int == 'a' as int + n
  {}

  lemma SameLetterIff(a: char, b: char)
    ensures LowerChar(a) == LowerChar(b) <==> SameLetter(a, b)
  {
    if a != b && LowerChar(a) == LowerChar(b) {
      var n := if 'A' <= a <= 'Z' then a as int - 'A' as int else a as int - 'a' as int;
      Alphabet(n);
      assert (a == UPPER[n] && b == LOWER[n]) || (a == LOWER[n] && b == UPPER[n]);
    }
    if a != b && SameLetter(a, b) {
      var n :| 0 <= n < 26 && ((a == UPPER[n] && b == LOWER[n]) || (a == LOWER[n] && b == UPPER[n]));
      Alphabet(n);
    }
  }

  ghost predicate OccursAt(w: string, s: string, i: nat) {
    i + |w| <= |s| && forall k :: 0 <= k < |w| ==> SameLetter(s[i + k], w[k])
  }

  /** `w` occurs in `s`, ignoring case. */
  ghost predicate Occurs(w: string, s: string) {
    exists i: nat :: OccursAt(w, s, i)
  }

  lemma OccursAtIff(w: string, s: string, i: nat)
    ensures ContainsAt(Lower(s), Lower(w), i) <==> OccursAt(w, s, i)
  {
    if i + |w| <= |s| {
      var part := Lower(s)[i..i + |w|];
      forall k | 0 <= k < |w| ensures part[k] == Lower(w)[k] <==> SameLetter(s[i + k], w[k]) {
        SameLetterIff(s[i + k], w[k]);
      }
    }
  }

  lemma OccursIff(w: string, s: string)
    ensures Contains(Lower(s), Lower(w)) <==> Occurs(w, s)
  {
    forall i: nat ensures ContainsAt(Lower(s), Lower(w), i) <==> OccursAt(w, s, i) {
      OccursAtIff(w, s, i);
    }
  }

  // ---- The search ---------------------------------------------------------------------------------

  ghost predicate Mentions(j: Job, w: string) {
    Occurs(w, j.id) || Occurs(w, j.name)
  }

  /** A search for some words, spaced out in any way, keeps exactly those rows that the rest of
      the filter keeps and that mention every one of the words. */
  lemma SearchMeans(f: Filter, j: Job, words: seq<string>, gaps: seq<string>)
    requires Spaced(words, gaps) && f.search == Laid(words, gaps)
    ensures Matches(f, j) <==> Matches(f.(search := ""), j) && forall i :: 0 <= i < |words| ==> Mentions(j, words[i])
  {
    assert Lower("") == "";
    FieldsOfLaid(words, gaps);
    FieldsLower(f.search);
    var terms := LowerAll(words);
    forall i | 0 <= i < |words|
      ensures Contains(Lower(j.id), terms[i]) || Contains(Lower(j.name), terms[i]) <==> Mentions(j, words[i])
    {
      OccursIff(words[i], j.id);
      OccursIff(words[i], j.name);
    }
    TermsOneByOne(j, terms);
  }

  lemma TermsOneByOne(j: Job, terms: seq<string>)
    ensures MatchesTerms(j, terms) <==>
      forall i :: 0 <= i < |terms| ==> Contains(Lower(j.id), terms[i]) || Contains(Lower(j.name), terms[i])
  {
    if MatchesTerms(j, terms) {
      forall i | 0 <= i < |terms| ensures Contains(Lower(j.id), terms[i]) || Contains(Lower(j.name), terms[i]) {
        assert terms[i] in terms;
      }
    }
  }
}
