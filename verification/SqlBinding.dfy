/** Numbering placeholders, and what a compiled filter means.

Both engines bind the i-th placeholder to the i-th argument: SQLite counts the `?`
itself, and Postgres reads the $i that `rebind` wrote in its place. */
module SqlBinding {
  import opened Records
  import opened Decimal
  import opened Filters
  import opened Patterns
  import opened SqlStore
  import opened SqlFilters

  // ---- rebind ---------------------------------------------------------------------------

  function MarksIn(text: string): nat {
    if |text| == 0 then 0 else (if text[0] == '?' then 1 else 0) + MarksIn(text[1..])
  }

  function Dollar(i: nat): string {
    "$" + Digits(i)
  }

  /** `text` with its placeholders numbered from n + 1. */
  function RebindFrom(text: string, n: nat): string {
    if |text| == 0 then ""
    else if text[0] == '?' then Dollar(n + 1) + RebindFrom(text[1..], n + 1)
    else [text[0]] + RebindFrom(text[1..], n)
  }

  method Rebind(query: string) returns (out: string)
    ensures out == RebindFrom(query, 0)
  {
    out := "";
    var n := 0;
    for i := 0 to |query|
      invariant n >= 0 && out + RebindFrom(query[i..], n) == RebindFrom(query, 0)
    {
      assert query[i..][1..] == query[i + 1..];
      if query[i] != '?' {
        Reassociate(out, [query[i]], RebindFrom(query[i + 1..], n));
        out := out + [query[i]];
      } else {
        n := n + 1;
        Reassociate(out, Dollar(n), RebindFrom(query[i + 1..], n));
        out := out + Dollar(n);
      }
    }
  }

  lemma Reassociate(a: string, b: string, c: string)
    ensures a + (b + c) == a + b + c
  {}

  lemma {:induction false} RebindConcat(a: string, b: string, n: nat)
    ensures MarksIn(a + b) == MarksIn(a) + MarksIn(b)
    ensures RebindFrom(a + b, n) == RebindFrom(a, n) + RebindFrom(b, n + MarksIn(a))
  {
    if |a| == 0 {
      assert a + b == b;
    } else {
      assert (a + b)[1..] == a[1..] + b;
      var next := if a[0] == '?' then n + 1 else n;
      RebindConcat(a[1..], b, next);
      Reassociate(if a[0] == '?' then Dollar(n + 1) else [a[0]], RebindFrom(a[1..], next), RebindFrom(b, n + MarksIn(a)));
    }
  }

  lemma {:induction false} RebindLiteral(a: string, n: nat)
    requires '?' !in a
    ensures MarksIn(a) == 0 && RebindFrom(a, n) == a
  {
    if |a| > 0 {
      RebindLiteral(a[1..], n);
      assert a == [a[0]] + a[1..];
      assert a[0] in a;
    }
  }

  lemma RebindMark(n: nat)
    ensures MarksIn("?") == 1 && RebindFrom("?", n) == Dollar(n + 1)
  {
    assert "?"[1..] == "";
    assert Dollar(n + 1) + "" == Dollar(n + 1);
  }

  /** Read from position n, `text` holds k placeholders and rebinds to `out`. */
  ghost predicate Rebinds(text: string, n: nat, out: string, k: nat) {
    MarksIn(text) == k && RebindFrom(text, n) == out
  }

  lemma RebindsThen(a: string, n: nat, oa: string, ka: nat, b: string, ob: string, kb: nat)
    requires Rebinds(a, n, oa, ka) && Rebinds(b, n + ka, ob, kb)
    ensures Rebinds(a + b, n, oa + ob, ka + kb)
  {
    RebindConcat(a, b, n);
  }

  lemma RebindsLiteral(a: string, n: nat)
    requires '?' !in a
    ensures Rebinds(a, n, a, 0)
  {
    RebindLiteral(a, n);
  }

  /** Some text between two literals. */
  lemma RebindsAround(a: string, p: string, n: nat, out: string, k: nat, b: string)
    requires '?' !in a && '?' !in b && Rebinds(p, n, out, k)
    ensures Rebinds(a + p + b, n, a + out + b, k)
  {
    RebindsLiteral(a, n);
    RebindsThen(a, n, a, 0, p, out, k);
    RebindsLiteral(b, n + k);
    RebindsThen(a + p, n, a + out, k, b, b, 0);
  }

  /** A separator and more text. */
  lemma RebindsJoin(a: string, n: nat, oa: string, ka: nat, sep: string, b: string, ob: string, kb: nat)
    requires '?' !in sep && Rebinds(a, n, oa, ka) && Rebinds(b, n + ka, ob, kb)
    ensures Rebinds(a + sep + b, n, oa + sep + ob, ka + kb)
  {
    RebindsLiteral(sep, n + ka);
    RebindsThen(a, n, oa, ka, sep, sep, 0);
    RebindsThen(a + sep, n, oa + sep, ka, b, ob, kb);
  }

  lemma RebindsMark(n: nat)
    ensures Rebinds("?", n, Dollar(n + 1), 1)
  {
    RebindMark(n);
  }

  lemma RebindsOne(a: string, b: string, n: nat)
    requires '?' !in a && '?' !in b
    ensures Rebinds(a + "?" + b, n, a + Dollar(n + 1) + b, 1)
  {
    RebindsMark(n);
    RebindsAround(a, "?", n, Dollar(n + 1), 1, b);
  }

  /** Two placeholders among three literals. */
  lemma RebindsTwo(a: string, b: string, c: string, n: nat)
    requires '?' !in a && '?' !in b && '?' !in c
    ensures Rebinds(a + "?" + b + "?" + c, n, a + Dollar(n + 1) + b + Dollar(n + 2) + c, 2)
  {
    RebindsOne(a, b, n);
    RebindsMark(n + 1);
    RebindsThen(a + "?" + b, n, a + Dollar(n + 1) + b, 1, "?", Dollar(n + 2), 1);
    RebindsLiteral(c, n + 2);
    RebindsThen(a + "?" + b + "?", n, a + Dollar(n + 1) + b + Dollar(n + 2), 2, c, c, 0);
  }

  // ---- Numbering a clause ------------------------------------------------------------------

  function Dollars(n: nat, k: nat): (ds: seq<string>)
    ensures |ds| == k && forall i :: 0 <= i < k ==> ds[i] == Dollar(n + i + 1)
  {
    seq(k, i requires 0 <= i < k => Dollar(n + i + 1))
  }

  lemma JoinStep(parts: seq<string>, part: string, sep: string)
    ensures Join(parts + [part], sep) == if |parts| == 0 then part else Join(parts, sep) + sep + part
  {
    assert (parts + [part])[..|parts|] == parts;
  }

  /** One more part of a separated list. */
  lemma RebindsJoinStep(parts: seq<string>, n: nat, outs: seq<string>, k: nat, sep: string,
                        part: string, out: string, more: nat)
    requires '?' !in sep && |parts| == |outs|
    requires Rebinds(Join(parts, sep), n, Join(outs, sep), k) && Rebinds(part, n + k, out, more)
    ensures Rebinds(Join(parts + [part], sep), n, Join(outs + [out], sep), k + more)
  {
    JoinStep(parts, part, sep);
    JoinStep(outs, out, sep);
    if |parts| > 0 {
      RebindsJoin(Join(parts, sep), n, Join(outs, sep), k, sep, part, out, more);
    }
  }

  lemma ListStep(n: nat, k: nat)
    ensures Marks(k + 1) == Marks(k) + ["?"] && Dollars(n, k + 1) == Dollars(n, k) + [Dollar(n + k + 1)]
  {}

  lemma {:induction false} RebindList(k: nat, n: nat, sep: string)
    requires '?' !in sep
    ensures Rebinds(Join(Marks(k), sep), n, Join(Dollars(n, k), sep), k)
  {
    if k > 0 {
      RebindList(k - 1, n, sep);
      RebindsMark(n + k - 1);
      ListStep(n, k - 1);
      RebindsJoinStep(Marks(k - 1), n, Dollars(n, k - 1), k - 1, sep, "?", Dollar(n + k), 1);
    }
  }

  /** The conjunct with its parameters spelled $n+1, $n+2, ... */
  function Numbered<P>(c: Cond<P>, n: nat): Cond<string> {
    With(c, Dollars(n, |Params(c)|))
  }

  lemma RebindCond<P>(engine: Engine, c: Cond<P>, n: nat)
    ensures Rebinds(Render(engine, Anonymous(c)), n, Render(engine, Numbered(c, n)), |Params(c)|)
  {
    match c
    case Equals(column, _) =>
      NoTail(ColumnText(column), n);
    case EnqueuedUpTo(_) => NoTail("enqueued_at <= ", n);
    case StateIn(ps) =>
      RebindList(|ps|, n, ",");
      RebindsAround("state IN (", Join(Marks(|ps|), ","), n, Join(Dollars(n, |ps|), ","), |ps|, ")");
    case LikeEither(_, _) =>
      RebindLike(engine, n);
    case HasKey(_) =>
      RebindHasKey(engine, n);
    case KeyIs(_, _) =>
      RebindKeyIs(engine, n);
  }

  lemma RebindLike(engine: Engine, n: nat)
    ensures Rebinds(Render(engine, LikeEither("?", "?")), n, Render(engine, LikeEither(Dollar(n + 1), Dollar(n + 2))), 2)
  {
    if engine.Postgres? {
      RebindsTwo("(id ILIKE ", " OR name ILIKE ", ")", n);
    } else {
      RebindsTwo("(id LIKE ", " OR name LIKE ", ")", n);
    }
  }

  lemma RebindHasKey(engine: Engine, n: nat)
    ensures Rebinds(Render(engine, HasKey("?")), n, Render(engine, HasKey(Dollar(n + 1))), 1)
  {
    if engine.Postgres? {
      RebindsOne("jsonb_exists(attributes, ", ")", n);
    } else {
      RebindsOne("json_extract(attributes, '$.' || ", ") IS NOT NULL", n);
    }
  }

  lemma RebindKeyIs(engine: Engine, n: nat)
    ensures Rebinds(Render(engine, KeyIs("?", "?")), n, Render(engine, KeyIs(Dollar(n + 1), Dollar(n + 2))), 2)
  {
    if engine.Postgres? {
      NoTailTwo("attributes->>", " = ", n);
    } else {
      NoTailTwo("json_extract(attributes, '$.' || ", ") = ", n);
    }
  }

  lemma NoTail(a: string, n: nat)
    requires '?' !in a
    ensures Rebinds(a + "?", n, a + Dollar(n + 1), 1)
  {
    RebindsOne(a, "", n);
    assert a + "?" + "" == a + "?" && a + Dollar(n + 1) + "" == a + Dollar(n + 1);
  }

  lemma NoTailTwo(a: string, b: string, n: nat)
    requires '?' !in a && '?' !in b
    ensures Rebinds(a + "?" + b + "?", n, a + Dollar(n + 1) + b + Dollar(n + 2), 2)
  {
    RebindsTwo(a, b, "", n);
    assert a + "?" + b + "?" + "" == a + "?" + b + "?";
    assert a + Dollar(n + 1) + b + Dollar(n + 2) + "" == a + Dollar(n + 1) + b + Dollar(n + 2);
  }

  function NumberedAll<P>(cs: seq<Cond<P>>): (ns: seq<Cond<string>>)
    ensures |ns| == |cs|
  {
    if |cs| == 0 then []
    else NumberedAll(cs[..|cs| - 1]) + [Numbered(cs[|cs| - 1], |AllParams(cs[..|cs| - 1])|)]
  }

  lemma RenderStep(engine: Engine, cs: seq<Cond<string>>, c: Cond<string>)
    ensures RenderAll(engine, cs + [c]) == RenderAll(engine, cs) + [Render(engine, c)]
  {}

  lemma AnonymousStep<P>(cs: seq<Cond<P>>)
    requires |cs| > 0
    ensures AnonymousAll(cs) == AnonymousAll(cs[..|cs| - 1]) + [Anonymous(cs[|cs| - 1])]
  {}

  /** The conjuncts `ts`, spelled with `?`, rebind to `ns`. */
  ghost predicate ListRebinds(engine: Engine, ts: seq<Cond<string>>, ns: seq<Cond<string>>, k: nat, sep: string) {
    |ts| == |ns| && Rebinds(Join(RenderAll(engine, ts), sep), 0, Join(RenderAll(engine, ns), sep), k)
  }

  lemma ListRebindsStep(engine: Engine, ts: seq<Cond<string>>, ns: seq<Cond<string>>, k: nat, sep: string,
                        t: Cond<string>, n: Cond<string>, more: nat)
    requires '?' !in sep && ListRebinds(engine, ts, ns, k, sep)
    requires Rebinds(Render(engine, t), k, Render(engine, n), more)
    ensures ListRebinds(engine, ts + [t], ns + [n], k + more, sep)
  {
    RenderStep(engine, ts, t);
    RenderStep(engine, ns, n);
    RebindsJoinStep(RenderAll(engine, ts), 0, RenderAll(engine, ns), k, sep, Render(engine, t), Render(engine, n), more);
  }

  lemma {:induction false} RebindAll<P>(engine: Engine, cs: seq<Cond<P>>, sep: string)
    requires '?' !in sep
    ensures ListRebinds(engine, AnonymousAll(cs), NumberedAll(cs), |AllParams(cs)|, sep)
  {
    if |cs| > 0 {
      var front, last := cs[..|cs| - 1], cs[|cs| - 1];
      var n := |AllParams(front)|;
      RebindAll(engine, front, sep);
      RebindCond(engine, last, n);
      AnonymousStep(cs);
      ListRebindsStep(engine, AnonymousAll(front), NumberedAll(front), n, sep,
                      Anonymous(last), Numbered(last, n), |Params(last)|);
    }
  }

  lemma RebindsBehind(prefix: string, keyword: string, text: string, out: string, k: nat)
    requires '?' !in prefix && '?' !in keyword && Rebinds(text, 0, out, k)
    ensures Rebinds(prefix + (keyword + text), 0, prefix + (keyword + out), k)
  {
    RebindsLiteral(prefix, 0);
    RebindsJoin(prefix, 0, prefix, 0, keyword, text, out, k);
    assert prefix + keyword + text == prefix + (keyword + text);
    assert prefix + keyword + out == prefix + (keyword + out);
  }

  /** Every compiled clause has one placeholder per argument, and rebinding numbers them
      1..n in order, behind any placeholder-free prefix. */
  lemma ClauseRebinds<P>(engine: Engine, cs: seq<Cond<P>>, prefix: string)
    requires '?' !in prefix
    ensures Rebinds(prefix + Where(engine, AnonymousAll(cs)), 0, prefix + Where(engine, NumberedAll(cs)), |AllParams(cs)|)
  {
    if |cs| == 0 {
      assert prefix + "" == prefix;
      RebindsLiteral(prefix, 0);
    } else {
      RebindAll(engine, cs, " AND ");
      RebindsBehind(prefix, " WHERE ", Join(RenderAll(engine, AnonymousAll(cs)), " AND "),
                    Join(RenderAll(engine, NumberedAll(cs)), " AND "), |AllParams(cs)|);
    }
  }

  /** No two positions share a spelling. */
  lemma DollarInjective(i: nat, j: nat)
    requires Dollar(i) == Dollar(j)
    ensures i == j
  {
    assert Dollar(i)[1..] == Digits(i) && Dollar(j)[1..] == Digits(j);
    DigitsValue(i);
    DigitsValue(j);
  }

  lemma {:induction false} NumberedParams<P>(cs: seq<Cond<P>>)
    ensures AllParams(NumberedAll(cs)) == Dollars(0, |AllParams(cs)|)
  {
    if |cs| > 0 {
      var front, last := cs[..|cs| - 1], cs[|cs| - 1];
      var n, k := |AllParams(front)|, |Params(last)|;
      NumberedParams(front);
      WithParams(last, Dollars(n, k));
      assert NumberedAll(cs)[..|cs| - 1] == NumberedAll(front);
      assert Dollars(0, n + k) == Dollars(0, n) + Dollars(n, k);
    }
  }

  /** The placeholders of a rebound clause, read off from left to right, are $1 to $n, all of
      them distinct: no two parameters read one argument. */
  lemma PlaceholdersDistinct<P>(cs: seq<Cond<P>>, i: nat, j: nat)
    requires i < |AllParams(cs)| && j < |AllParams(cs)|
    ensures var ps := AllParams(NumberedAll(cs));
      |ps| == |AllParams(cs)| && ps[i] == Dollar(i + 1) && (ps[i] == ps[j] ==> i == j)
  {
    NumberedParams(cs);
    if Dollar(i + 1) == Dollar(j + 1) {
      DollarInjective(i + 1, j + 1);
    }
  }

  // ---- Binding -------------------------------------------------------------------------------

  function Indices(n: nat, k: nat): (ix: seq<nat>)
    ensures |ix| == k && forall i :: 0 <= i < k ==> ix[i] == n + i + 1
  {
    seq(k, i requires 0 <= i < k => n + i + 1)
  }

  /** The clause as the engine reads it: parameters are positions in the argument list. */
  function Positions<P>(cs: seq<Cond<P>>): (ps: seq<Cond<nat>>)
    ensures |ps| == |cs|
  {
    if |cs| == 0 then []
    else Positions(cs[..|cs| - 1]) + [With(cs[|cs| - 1], Indices(|AllParams(cs[..|cs| - 1])|, |Params(cs[|cs| - 1])|))]
  }

  /** A position spelled the Postgres way. */
  function Spelled(c: Cond<nat>): Cond<string> {
    var ps := Params(c);
    With(c, seq(|ps|, i requires 0 <= i < |ps| => Dollar(ps[i])))
  }

  lemma SpelledOne<P>(c: Cond<P>, n: nat)
    ensures Spelled(With(c, Indices(n, |Params(c)|))) == Numbered(c, n)
  {
    var k := |Params(c)|;
    var ix := Indices(n, k);
    WithParams(c, ix);
    assert seq(|ix|, i requires 0 <= i < |ix| => Dollar(ix[i])) == Dollars(n, k);
    WithTwice(c, ix, Dollars(n, k));
  }

  /** What the rebound text says in $1, $2, ... is the position each parameter is read from. */
  lemma {:induction false} NumbersArePositions<P>(cs: seq<Cond<P>>, i: nat)
    requires i < |cs|
    ensures NumberedAll(cs)[i] == Spelled(Positions(cs)[i])
    decreases |cs|
  {
    if i < |cs| - 1 {
      NumbersArePositions(cs[..|cs| - 1], i);
    } else {
      SpelledOne(cs[i], |AllParams(cs[..i])|);
    }
  }

  function ArgAt(args: seq<Arg>, i: nat): Arg {
    if 1 <= i <= |args| then args[i - 1] else Text("")
  }

  function Bind(c: Cond<nat>, args: seq<Arg>): Cond<Arg> {
    var ps := Params(c);
    With(c, seq(|ps|, i requires 0 <= i < |ps| => ArgAt(args, ps[i])))
  }

  predicate Holds(engine: Engine, cs: seq<Cond<nat>>, args: seq<Arg>, r: Row) {
    forall c :: c in cs ==> Eval(engine, Bind(c, args), r)
  }

  lemma BindOne(c: Cond<Arg>, n: nat, args: seq<Arg>)
    requires n + |Params(c)| <= |args| && args[n..n + |Params(c)|] == Params(c)
    ensures Bind(With(c, Indices(n, |Params(c)|)), args) == c
  {
    var ps := Params(c);
    var ix := Indices(n, |ps|);
    WithParams(c, ix);
    var bound := seq(|ix|, i requires 0 <= i < |ix| => ArgAt(args, ix[i]));
    assert bound == ps by {
      forall i | 0 <= i < |ps| ensures bound[i] == ps[i] {
        assert args[n..n + |ps|][i] == args[n + i];
      }
    }
    WithOwn(c);
    WithTwice(c, ix, bound);
  }

  lemma WithParams<P, Q>(c: Cond<P>, qs: seq<Q>)
    requires |qs| == |Params(c)|
    ensures Params(With(c, qs)) == qs
  {}

  lemma WithOwn<P>(c: Cond<P>)
    ensures With(c, Params(c)) == c
  {}

  lemma WithTwice<P, Q, R>(c: Cond<P>, qs: seq<Q>, rs: seq<R>)
    requires |qs| == |rs| == |Params(c)|
    ensures |Params(With(c, qs))| == |rs| && With(With(c, qs), rs) == With(c, rs)
  {}

  lemma LastBinds(cs: seq<Cond<Arg>>, args: seq<Arg>)
    requires |cs| > 0 && AllParams(cs) <= args
    ensures AllParams(cs[..|cs| - 1]) <= args
    ensures Bind(Positions(cs)[|cs| - 1], args) == cs[|cs| - 1]
  {
    var front, last := cs[..|cs| - 1], cs[|cs| - 1];
    Within(AllParams(front), Params(last), args);
    BindOne(last, |AllParams(front)|, args);
  }

  lemma Within(a: seq<Arg>, b: seq<Arg>, args: seq<Arg>)
    requires a + b <= args
    ensures a <= args && |a| + |b| <= |args| && args[|a|..|a| + |b|] == b
  {
    assert args[..|a|] == (a + b)[..|a|];
  }

  /** Every parameter receives the argument that was appended with it. */
  lemma {:induction false} BindingIsExact(cs: seq<Cond<Arg>>, args: seq<Arg>, i: nat)
    requires i < |cs| && AllParams(cs) <= args
    ensures Bind(Positions(cs)[i], args) == cs[i]
    decreases |cs|
  {
    LastBinds(cs, args);
    if i < |cs| - 1 {
      BindingIsExact(cs[..|cs| - 1], args, i);
    }
  }

  predicate AllHold(engine: Engine, cs: seq<Cond<Arg>>, r: Row) {
    forall c :: c in cs ==> Eval(engine, c, r)
  }

  lemma HoldsIffAllHold(engine: Engine, cs: seq<Cond<Arg>>, r: Row)
    ensures Holds(engine, Positions(cs), AllParams(cs), r) <==> AllHold(engine, cs, r)
  {
    var ps, args := Positions(cs), AllParams(cs);
    forall i | 0 <= i < |cs| ensures Bind(ps[i], args) == cs[i] {
      BindingIsExact(cs, args, i);
    }
    if AllHold(engine, cs, r) {
      forall p | p in ps ensures Eval(engine, Bind(p, args), r) {
        var i :| 0 <= i < |ps| && ps[i] == p;
        assert cs[i] in cs;
      }
    }
    if Holds(engine, ps, args, r) {
      forall c | c in cs ensures Eval(engine, c, r) {
        var i :| 0 <= i < |cs| && cs[i] == c;
        assert ps[i] in ps;
      }
    }
  }

  lemma AllHoldConcat(engine: Engine, cs: seq<Cond<Arg>>, ds: seq<Cond<Arg>>, r: Row)
    ensures AllHold(engine, cs + ds, r) <==> AllHold(engine, cs, r) && AllHold(engine, ds, r)
  {
    assert forall c :: c in cs ==> c in cs + ds;
    assert forall c :: c in ds ==> c in cs + ds;
  }

  lemma AllHoldOpt(engine: Engine, on: bool, c: Cond<Arg>, r: Row)
    ensures AllHold(engine, Opt(on, c), r) <==> (on ==> Eval(engine, c, r))
  {
    assert on ==> c in Opt(on, c);
  }

  // ---- A compiled filter means what the reference store means ------------------------------------

  ghost predicate Searchable(engine: Engine, search: string) {
    Literal(engine.Postgres?, search)
  }

  lemma TermsAreLiteral(engine: Engine, search: string)
    requires Searchable(engine, search)
    ensures forall t :: t in Fields(search) ==> Literal(engine.Postgres?, t)
  {
    TermsComeFromSearch(search, '%');
    TermsComeFromSearch(search, '_');
    if engine.Postgres? {
      TermsComeFromSearch(search, '\\');
    }
    forall t | t in Fields(search) ensures Literal(engine.Postgres?, t) {
      forall i | 0 <= i < |t| ensures !SpecialChar(engine.Postgres?, t[i]) {
        assert t[i] in t;
      }
    }
  }

  lemma TermsMean(engine: Engine, f: Filter, j: Job)
    requires Searchable(engine, f.search)
    ensures AllHold(engine, TermConds(Fields(f.search)), Encode(j))
       <==> MatchesTerms(j, Fields(Lower(f.search)))
  {
    var terms := Fields(f.search);
    FieldsLower(f.search);
    TermsAreLiteral(engine, f.search);
    forall i | 0 <= i < |terms|
      ensures Eval(engine, TermConds(terms)[i], Encode(j))
         <==> Contains(Lower(j.id), LowerAll(terms)[i]) || Contains(Lower(j.name), LowerAll(terms)[i])
    {
      assert terms[i] in terms;
      LikeFindsLiteral(engine.Postgres?, terms[i], j.id);
      LikeFindsLiteral(engine.Postgres?, terms[i], j.name);
    }
  }

  lemma AttributesMean(engine: Engine, f: Filter, j: Job)
    requires ReadsPlainKeys(engine)
    requires engine.Sqlite? && f.attrKey != "" ==> PlainKey(f.attrKey)
    ensures AllHold(engine, AttrConds(f), Encode(j)) <==> MatchesAttribute(j, f)
  {
    if f.attrKey != "" {
      assert AttrConds(f)[0] in AttrConds(f);
    }
  }

  lemma WindowMeans(t: Time, before: Time)
    requires Micro(t) && before >= UNIX_EPOCH
    ensures Unix(t) <= Unix(before) <==> t <= before
  {}

  lemma NamesMean(engine: Engine, f: Filter, j: Job)
    ensures AllHold(engine, NameConds(f), Encode(j)) <==>
      (f.queue == "" || j.queue == f.queue) && (f.name == "" || j.name == f.name)
  {
    var c, d, r := Equals(Queue, Text(f.queue)), Equals(Name, Text(f.name)), Encode(j);
    AllHoldOpt(engine, f.queue != "", c, r);
    AllHoldOpt(engine, f.name != "", d, r);
    AllHoldConcat(engine, Opt(f.queue != "", c), Opt(f.name != "", d), r);
  }

  lemma WindowConditionsMean(engine: Engine, f: Filter, j: Job)
    requires MicroJob(j) && (f.before == 0 || f.before >= UNIX_EPOCH)
    ensures AllHold(engine, WindowConds(f), Encode(j)) <==>
      (f.before == 0 || j.enqueuedAt <= f.before) && (f.pattern == "" || j.pattern == f.pattern)
  {
    var c, d, r := EnqueuedUpTo(Micros(Unix(f.before))), Equals(Pattern, Text(f.pattern)), Encode(j);
    AllHoldOpt(engine, f.before != 0, c, r);
    AllHoldOpt(engine, f.pattern != "", d, r);
    AllHoldConcat(engine, Opt(f.before != 0, c), Opt(f.pattern != "", d), r);
    if f.before != 0 {
      WindowMeans(j.enqueuedAt, f.before);
    }
  }

  lemma StatesMean(engine: Engine, f: Filter, j: Job)
    ensures AllHold(engine, Opt(f.states != [], StateIn(StateArgs(f.states))), Encode(j)) <==>
      (f.states == [] || j.state in f.states)
  {
    AllHoldOpt(engine, f.states != [], StateIn(StateArgs(f.states)), Encode(j));
    var args := StateArgs(f.states);
    if StateName(j.state) in args {
      var i :| 0 <= i < |args| && args[i] == StateName(j.state);
      assert f.states[i] == j.state;
    }
    if j.state in f.states {
      var i :| 0 <= i < |f.states| && f.states[i] == j.state;
      assert args[i] in args;
    }
  }

  /** Filter compilation preserves meaning: the clause, read with its arguments in order,
      selects exactly the rows whose jobs the reference store matches, for both engines
      and every filter whose search holds no wildcard. */
  lemma FilterCompiles(engine: Engine, f: Filter, j: Job)
    requires ReadsPlainKeys(engine) && Searchable(engine, f.search)
    requires engine.Sqlite? && f.attrKey != "" ==> PlainKey(f.attrKey)
    requires MicroJob(j) && (f.before == 0 || f.before >= UNIX_EPOCH)
    ensures Holds(engine, Positions(Conds(f)), AllParams(Conds(f)), Encode(j)) <==> Matches(f, j)
  {
    var r, states := Encode(j), Opt(f.states != [], StateIn(StateArgs(f.states)));
    HoldsIffAllHold(engine, Conds(f), r);
    NamesMean(engine, f, j);
    WindowConditionsMean(engine, f, j);
    StatesMean(engine, f, j);
    TermsMean(engine, f, j);
    AttributesMean(engine, f, j);
    AllHoldConcat(engine, NameConds(f), WindowConds(f), r);
    AllHoldConcat(engine, NameConds(f) + WindowConds(f), states, r);
    AllHoldConcat(engine, PlainConds(f), TermConds(Fields(f.search)), r);
    AllHoldConcat(engine, PlainConds(f) + TermConds(Fields(f.search)), AttrConds(f), r);
  }
}
