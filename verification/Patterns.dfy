/** SQL LIKE (SQLite) and ILIKE (Postgres) against the reference substring search.

The search box builds the pattern "%term%"; both operators ignore ASCII case.
Postgres also treats a backslash as an escape. */
module Patterns {
  import opened Filters

  function Like(escapes: bool, p: string, s: string): bool
    decreases |p| + |s|
  {
    if |p| == 0 then |s| == 0
    else if p[0] == '%' then Like(escapes, p[1..], s) || (|s| > 0 && Like(escapes, p, s[1..]))
    else if p[0] == '_' then |s| > 0 && Like(escapes, p[1..], s[1..])
    else if escapes && p[0] == '\\' then
      |p| > 1 && |s| > 0 && LowerChar(p[1]) == LowerChar(s[0]) && Like(escapes, p[2..], s[1..])
    else |s| > 0 && LowerChar(p[0]) == LowerChar(s[0]) && Like(escapes, p[1..], s[1..])
  }

  predicate SpecialChar(escapes: bool, c: char) {
    c == '%' || c == '_' || (escapes && c == '\\')
  }

  predicate Literal(escapes: bool, t: string) {
    forall i :: 0 <= i < |t| ==> !SpecialChar(escapes, t[i])
  }

  /** Without "%" and escapes a pattern goes character by character: "_" stands for any one,
      anything else for itself in either case. */
  lemma {:induction false} LikeWithoutPercent(escapes: bool, p: string, s: string)
    requires '%' !in p && (escapes ==> '\\' !in p)
    ensures Like(escapes, p, s) <==>
      |p| == |s| && forall i :: 0 <= i < |p| ==> p[i] == '_' || LowerChar(p[i]) == LowerChar(s[i])
    decreases |p|
  {
    if |p| > 0 {
      assert p[0] in p;
      if |s| > 0 {
        LikeWithoutPercent(escapes, p[1..], s[1..]);
        if |p| == |s| {
          assert forall i :: 0 < i < |p| ==> p[i] == p[1..][i - 1] && s[i] == s[1..][i - 1];
        }
      }
    }
  }

  lemma {:induction false} LikePercent(escapes: bool, s: string)
    ensures Like(escapes, "%", s)
    decreases |s|
  {
    if |s| > 0 {
      LikePercent(escapes, s[1..]);
    } else {
      assert "%"[1..] == "";
    }
  }

  /** A literal term followed by "%" matches the strings it begins, ignoring case. */
  lemma {:induction false} LikePrefix(escapes: bool, t: string, s: string)
    requires Literal(escapes, t)
    ensures Like(escapes, t + "%", s) <==> |t| <= |s| && Lower(s[..|t|]) == Lower(t)
    decreases |t|
  {
    if |t| == 0 {
      assert t + "%" == "%";
      LikePercent(escapes, s);
    } else {
      assert (t + "%")[1..] == t[1..] + "%";
      if |s| > 0 {
        LikePrefix(escapes, t[1..], s[1..]);
        if |t| <= |s| {
          assert s[..|t|] == [s[0]] + s[1..][..|t| - 1];
          assert t == [t[0]] + t[1..];
          LowerSplit(s[0], s[1..][..|t| - 1]);
          LowerSplit(t[0], t[1..]);
        }
      }
    }
  }

  lemma LowerSplit(c: char, s: string)
    ensures Lower([c] + s) == [LowerChar(c)] + Lower(s)
    ensures Lower([c] + s)[0] == LowerChar(c) && Lower([c] + s)[1..] == Lower(s)
  {
    var whole, parts := Lower([c] + s), [LowerChar(c)] + Lower(s);
    assert |whole| == |parts|;
    forall i | 0 <= i < |whole| ensures whole[i] == parts[i] {
      if i > 0 { assert ([c] + s)[i] == s[i - 1]; }
    }
    assert whole == parts;
    assert parts[1..] == Lower(s);
  }

  /** A leading "%" skips any number of characters. */
  lemma {:induction false} LikeSkip(escapes: bool, q: string, s: string)
    ensures Like(escapes, "%" + q, s) <==> exists i: nat :: i <= |s| && Like(escapes, q, s[i..])
    decreases |s|
  {
    assert ("%" + q)[1..] == q && s[0..] == s;
    if |s| > 0 {
      LikeSkip(escapes, q, s[1..]);
      if Like(escapes, "%" + q, s[1..]) {
        var i: nat :| i <= |s[1..]| && Like(escapes, q, s[1..][i..]);
        assert s[1..][i..] == s[i + 1..];
      }
      if i: nat :| 0 < i <= |s| && Like(escapes, q, s[i..]) {
        assert s[1..][i - 1..] == s[i..];
      }
    }
  }

  lemma LowerSlice(s: string, i: nat, n: nat)
    requires i + n <= |s|
    ensures Lower(s[i..][..n]) == Lower(s)[i..i + n]
  {}

  /** A literal term is found exactly where the reference search finds it. */
  lemma LikeFindsLiteral(escapes: bool, t: string, s: string)
    requires Literal(escapes, t)
    ensures Like(escapes, "%" + t + "%", s) <==> Contains(Lower(s), Lower(t))
  {
    assert "%" + t + "%" == "%" + (t + "%");
    LikeSkip(escapes, t + "%", s);
    forall i: nat | i <= |s|
      ensures Like(escapes, t + "%", s[i..]) <==> ContainsAt(Lower(s), Lower(t), i)
    {
      LikePrefix(escapes, t, s[i..]);
      if i + |t| <= |s| {
        LowerSlice(s, i, |t|);
      }
    }
  }

  // ---- Wildcards in the search box -----------------------------------------------------

  /** A shortest text that a term followed by "%" matches. */
  function Witness(escapes: bool, t: string): (w: string)
    ensures |w| <= |t|
  {
    if |t| == 0 then ""
    else if t[0] == '%' then Witness(escapes, t[1..])
    else if t[0] == '_' then "a" + Witness(escapes, t[1..])
    else if escapes && t[0] == '\\' then
      if |t| == 1 then "%" else [t[1]] + Witness(escapes, t[2..])
    else [t[0]] + Witness(escapes, t[1..])
  }

  lemma {:induction false} WitnessMatches(escapes: bool, t: string)
    ensures Like(escapes, t + "%", Witness(escapes, t))
    decreases |t|
  {
    var w, p := Witness(escapes, t), t + "%";
    if |t| == 0 {
      assert p == "%";
      LikePercent(escapes, w);
    } else {
      assert p[1..] == t[1..] + "%";
      if escapes && t[0] == '\\' {
        if |t| == 1 {
          assert p[1] == '%' && p[2..] == "" && w[1..] == "";
        } else {
          assert p[2..] == t[2..] + "%" && w[1..] == Witness(escapes, t[2..]);
          WitnessMatches(escapes, t[2..]);
        }
      } else {
        WitnessMatches(escapes, t[1..]);
        if t[0] != '%' {
          assert w[1..] == Witness(escapes, t[1..]);
        }
      }
    }
  }

  lemma {:induction false} WitnessDiffers(escapes: bool, t: string)
    requires !Literal(escapes, t)
    ensures Lower(Witness(escapes, t)) != Lower(t)
    decreases |t|
  {
    var w := Witness(escapes, t);
    if !SpecialChar(escapes, t[0]) {
      assert exists i :: 0 <= i < |t[1..]| && SpecialChar(escapes, t[1..][i]) by {
        var i :| 0 <= i < |t| && SpecialChar(escapes, t[i]);
        assert t[1..][i - 1] == t[i];
      }
      WitnessDiffers(escapes, t[1..]);
      assert t == [t[0]] + t[1..];
      LowerSplit(t[0], t[1..]);
      LowerSplit(t[0], Witness(escapes, t[1..]));
    } else if |w| == |t| {
      assert Lower(w)[0] == LowerChar(w[0]) && Lower(t)[0] == LowerChar(t[0]);
    }
  }

  lemma ContainsSame(s: string, t: string)
    requires |s| <= |t| && Contains(s, t)
    ensures s == t
  {
    var i: nat :| i <= |s| && ContainsAt(s, t, i);
    assert i == 0 && s[0..|t|] == s;
  }

  ghost predicate SearchesLiterally(escapes: bool, t: string) {
    forall s :: Like(escapes, "%" + t + "%", s) <==> Contains(Lower(s), Lower(t))
  }

  /** The SQL search means the reference search for a term if and only if the term holds
      no wildcard (and, on Postgres, no backslash): the term is passed unescaped. */
  lemma LikeIsContainsIff(escapes: bool, t: string)
    ensures SearchesLiterally(escapes, t) <==> Literal(escapes, t)
  {
    if Literal(escapes, t) {
      forall s ensures Like(escapes, "%" + t + "%", s) <==> Contains(Lower(s), Lower(t)) {
        LikeFindsLiteral(escapes, t, s);
      }
    } else {
      var w := Witness(escapes, t);
      WitnessMatches(escapes, t);
      assert "%" + t + "%" == "%" + (t + "%") && w[0..] == w;
      LikeSkip(escapes, t + "%", w);
      WitnessDiffers(escapes, t);
      if Contains(Lower(w), Lower(t)) {
        ContainsSame(Lower(w), Lower(t));
      }
    }
  }

  // ---- Splitting the search box -------------------------------------------------------------

  function LowerAll(ts: seq<string>): (r: seq<string>)
    ensures |r| == |ts| && forall i :: 0 <= i < |ts| ==> r[i] == Lower(ts[i])
  {
    seq(|ts|, i requires 0 <= i < |ts| => Lower(ts[i]))
  }

  lemma LowerAppend(s: string, c: char)
    ensures Lower(s + [c]) == Lower(s) + [LowerChar(c)]
  {}

  lemma {:induction false} ScanLower(s: string)
    ensures ScanWords(Lower(s)) == Scan(LowerAll(ScanWords(s).words), Lower(ScanWords(s).open))
  {
    if |s| > 0 {
      var m := |s| - 1;
      ScanLower(s[..m]);
      assert s == s[..m] + [s[m]];
      LowerAppend(s[..m], s[m]);
      assert Lower(s)[..m] == Lower(s[..m]);
      var front := ScanWords(s[..m]);
      assert IsSpace(LowerChar(s[m])) <==> IsSpace(s[m]);
      if IsSpace(s[m]) {
        CloseLower(front);
      } else {
        LowerAppend(front.open, s[m]);
      }
    }
  }

  lemma CloseLower(scan: Scan)
    ensures Close(Scan(LowerAll(scan.words), Lower(scan.open))) == LowerAll(Close(scan))
  {
    assert Lower(scan.open) == "" <==> scan.open == "";
    assert LowerAll(scan.words + [scan.open]) == LowerAll(scan.words) + [Lower(scan.open)];
  }

  /** Lower-casing before or after splitting gives the same terms. */
  lemma FieldsLower(s: string)
    ensures Fields(Lower(s)) == LowerAll(Fields(s))
  {
    ScanLower(s);
    CloseLower(ScanWords(s));
  }

  lemma {:induction false} TermsComeFromSearch(s: string, c: char)
    requires c !in s
    ensures c !in ScanWords(s).open && forall t :: t in Fields(s) || t in ScanWords(s).words ==> c !in t
  {
    if |s| > 0 {
      TermsComeFromSearch(s[..|s| - 1], c);
    }
  }
}
