/** Compiling a filter to a WHERE clause (predicate and rebind in
store/postgres/postgres.go; predicate in store/sqlite/sqlite.go). */
module SqlFilters {
  import opened Bands
  import opened Records
  import opened Filters
  import opened Patterns
  import opened SqlStore

  /** SQLite reads an attribute through a JSON path; `extract` is what json_extract finds
      in an object of strings at '$.' || key. */
  datatype Engine = Postgres | Sqlite(extract: (map<string, string>, string) -> Option<string>)

  /** Path syntax gives letters, digits and underscores no special meaning. */
  predicate PlainKey(key: string) {
    |key| > 0 && forall i :: 0 <= i < |key| ==>
      'a' <= key[i] <= 'z' || 'A' <= key[i] <= 'Z' || '0' <= key[i] <= '9' || key[i] == '_'
  }

  ghost predicate ReadsPlainKeys(engine: Engine) {
    engine.Sqlite? ==> forall attrs, key :: PlainKey(key) ==>
      engine.extract(attrs, key) == if key in attrs then Some(attrs[key]) else None
  }

  /** A bound parameter.  A state is bound as its name. */
  datatype Arg = Text(s: string) | Micros(us: int) | StateName(state: State)

  datatype Column = Queue | Name | Pattern

  /** One conjunct, over whatever stands for a parameter: a value, a number, or its
      spelling in the statement. */
  datatype Cond<P> =
    | Equals(column: Column, p: P)
    | EnqueuedUpTo(p: P)
    | StateIn(ps: seq<P>)
    | LikeEither(p: P, q: P)
    | HasKey(p: P)
    | KeyIs(p: P, q: P)

  function Params<P>(c: Cond<P>): seq<P> {
    match c
    case Equals(_, p) => [p]
    case EnqueuedUpTo(p) => [p]
    case StateIn(ps) => ps
    case LikeEither(p, q) => [p, q]
    case HasKey(p) => [p]
    case KeyIs(p, q) => [p, q]
  }

  /** The same conjunct over other parameters. */
  function With<P, Q>(c: Cond<P>, qs: seq<Q>): Cond<Q>
    requires |qs| == |Params(c)|
  {
    match c
    case Equals(column, _) => Equals(column, qs[0])
    case EnqueuedUpTo(_) => EnqueuedUpTo(qs[0])
    case StateIn(_) => StateIn(qs)
    case LikeEither(_, _) => LikeEither(qs[0], qs[1])
    case HasKey(_) => HasKey(qs[0])
    case KeyIs(_, _) => KeyIs(qs[0], qs[1])
  }

  // ---- Meaning ---------------------------------------------------------------------------

  function ColumnOf(r: Row, column: Column): string {
    match column
    case Queue => r.queue
    case Name => r.name
    case Pattern => r.pattern
  }

  function Attribute(engine: Engine, attrs: map<string, string>, key: string): Option<string> {
    if engine.Sqlite? then engine.extract(attrs, key)
    else if key in attrs then Some(attrs[key]) else None
  }

  predicate LikeArg(engine: Engine, p: Arg, s: string) {
    p.Text? && Like(engine.Postgres?, p.s, s)
  }

  predicate Eval(engine: Engine, c: Cond<Arg>, r: Row) {
    match c
    case Equals(column, p) => p == Text(ColumnOf(r, column))
    case EnqueuedUpTo(p) => p.Micros? && r.enqueuedAt <= p.us
    case StateIn(ps) => StateName(r.state) in ps
    case LikeEither(p, q) => LikeArg(engine, p, r.id) || LikeArg(engine, q, r.name)
    case HasKey(p) => p.Text? && Attribute(engine, r.attributes, p.s).Some?
    case KeyIs(p, q) => p.Text? && q.Text? && Attribute(engine, r.attributes, p.s) == Some(q.s)
  }

  // ---- The conditions a filter stands for ---------------------------------------------------

  function StateArgs(states: seq<State>): (ps: seq<Arg>)
    ensures |ps| == |states| && forall i :: 0 <= i < |states| ==> ps[i] == StateName(states[i])
  {
    seq(|states|, i requires 0 <= i < |states| => StateName(states[i]))
  }

  function Quoted(term: string): Arg {
    Text("%" + term + "%")
  }

  function TermConds(terms: seq<string>): (cs: seq<Cond<Arg>>)
    ensures |cs| == |terms| && forall i :: 0 <= i < |terms| ==> cs[i] == LikeEither(Quoted(terms[i]), Quoted(terms[i]))
  {
    seq(|terms|, i requires 0 <= i < |terms| => LikeEither(Quoted(terms[i]), Quoted(terms[i])))
  }

  function Opt<T>(on: bool, x: T): seq<T> {
    if on then [x] else []
  }

  function NameConds(f: Filter): seq<Cond<Arg>> {
    Opt(f.queue != "", Equals(Queue, Text(f.queue))) + Opt(f.name != "", Equals(Name, Text(f.name)))
  }

  function WindowConds(f: Filter): seq<Cond<Arg>> {
    Opt(f.before != 0, EnqueuedUpTo(Micros(Unix(f.before)))) + Opt(f.pattern != "", Equals(Pattern, Text(f.pattern)))
  }

  function PlainConds(f: Filter): seq<Cond<Arg>> {
    NameConds(f) + WindowConds(f) + Opt(f.states != [], StateIn(StateArgs(f.states)))
  }

  function AttrConds(f: Filter): seq<Cond<Arg>> {
    if f.attrKey == "" then []
    else if f.attrValue == "" then [HasKey(Text(f.attrKey))]
    else [KeyIs(Text(f.attrKey), Text(f.attrValue))]
  }

  function Conds(f: Filter): seq<Cond<Arg>> {
    PlainConds(f) + TermConds(Fields(f.search)) + AttrConds(f)
  }

  function AllParams<P>(cs: seq<Cond<P>>): seq<P> {
    if |cs| == 0 then [] else AllParams(cs[..|cs| - 1]) + Params(cs[|cs| - 1])
  }

  // ---- Text ------------------------------------------------------------------------------------

  function Join(parts: seq<string>, sep: string): string {
    if |parts| == 0 then ""
    else if |parts| == 1 then parts[0]
    else Join(parts[..|parts| - 1], sep) + sep + parts[|parts| - 1]
  }

  function ColumnText(column: Column): string {
    match column
    case Queue => "queue = "
    case Name => "name = "
    case Pattern => "pattern = "
  }

  /** A conjunct, given the spelling of its parameters. */
  function Render(engine: Engine, c: Cond<string>): string {
    match c
    case Equals(column, p) => ColumnText(column) + p
    case EnqueuedUpTo(p) => "enqueued_at <= " + p
    case StateIn(ps) => "state IN (" + Join(ps, ",") + ")"
    case LikeEither(p, q) =>
      if engine.Postgres? then "(id ILIKE " + p + " OR name ILIKE " + q + ")"
      else "(id LIKE " + p + " OR name LIKE " + q + ")"
    case HasKey(p) =>
      if engine.Postgres? then "jsonb_exists(attributes, " + p + ")"
      else "json_extract(attributes, '$.' || " + p + ") IS NOT NULL"
    case KeyIs(p, q) =>
      if engine.Postgres? then "attributes->>" + p + " = " + q
      else "json_extract(attributes, '$.' || " + p + ") = " + q
  }

  function RenderAll(engine: Engine, cs: seq<Cond<string>>): (parts: seq<string>)
    ensures |parts| == |cs| && forall i :: 0 <= i < |cs| ==> parts[i] == Render(engine, cs[i])
  {
    seq(|cs|, i requires 0 <= i < |cs| => Render(engine, cs[i]))
  }

  function Where(engine: Engine, cs: seq<Cond<string>>): string {
    if |cs| == 0 then "" else " WHERE " + Join(RenderAll(engine, cs), " AND ")
  }

  /** Every parameter spelled "?". */
  function Anonymous<P>(c: Cond<P>): Cond<string> {
    With(c, Marks(|Params(c)|))
  }

  function Marks(n: nat): (ms: seq<string>)
    ensures |ms| == n && forall i :: 0 <= i < n ==> ms[i] == "?"
  {
    seq(n, _ => "?")
  }

  function AnonymousAll<P>(cs: seq<Cond<P>>): (as_: seq<Cond<string>>)
    ensures |as_| == |cs| && forall i :: 0 <= i < |cs| ==> as_[i] == Anonymous(cs[i])
  {
    seq(|cs|, i requires 0 <= i < |cs| => Anonymous(cs[i]))
  }

  /** The fragments as the source spells them. */
  lemma Spelling(engine: Engine, v: Arg)
    ensures Render(engine, Anonymous(Equals(Queue, v))) == "queue = " + "?"
    ensures Render(engine, Anonymous(Equals(Name, v))) == "name = " + "?"
    ensures Render(engine, Anonymous(Equals(Pattern, v))) == "pattern = " + "?"
    ensures Render(engine, Anonymous(EnqueuedUpTo(v))) == "enqueued_at <= " + "?"
  {}

  lemma LikeSpelling(engine: Engine, v: Arg)
    ensures Render(engine, Anonymous(LikeEither(v, v))) == LikeText(engine)
  {}

  lemma AttrSpelling(engine: Engine, v: Arg, w: Arg)
    ensures Render(engine, Anonymous(HasKey(v))) == HasKeyText(engine)
    ensures Render(engine, Anonymous(KeyIs(v, w))) == KeyIsText(engine)
  {}

  function HasKeyText(engine: Engine): string {
    if engine.Postgres? then "jsonb_exists(attributes, " + "?" + ")"
    else "json_extract(attributes, '$.' || " + "?" + ") IS NOT NULL"
  }

  function KeyIsText(engine: Engine): string {
    if engine.Postgres? then "attributes->>" + "?" + " = " + "?"
    else "json_extract(attributes, '$.' || " + "?" + ") = " + "?"
  }

  /** The source's appends and loops: fragments and arguments grow side by side. */
  method Predicate(engine: Engine, f: Filter) returns (clause: string, args: seq<Arg>)
    ensures clause == Where(engine, AnonymousAll(Conds(f)))
    ensures args == AllParams(Conds(f))
  {
    var where: seq<string>;
    where, args := NameFragments(engine, f);
    where, args := WindowFragments(engine, f, NameConds(f), where, args);
    where, args := StateFragment(engine, f, NameConds(f) + WindowConds(f), where, args);
    where, args := TermFragments(engine, f, PlainConds(f), where, args);
    where, args := AttrFragment(engine, f, PlainConds(f) + TermConds(Fields(f.search)), where, args);
    if |where| == 0 {
      return "", [];
    }
    clause := " WHERE " + Join(where, " AND ");
  }

  method TermFragments(engine: Engine, f: Filter, ghost cs: seq<Cond<Arg>>, before: seq<string>, bound: seq<Arg>)
    returns (where: seq<string>, args: seq<Arg>)
    requires Built(engine, cs, before, bound)
    ensures Built(engine, cs + TermConds(Fields(f.search)), where, args)
  {
    where, args := before, bound;
    var terms := Fields(f.search);
    assert cs + TermConds([]) == cs;
    for i := 0 to |terms|
      invariant Built(engine, cs + TermConds(terms[..i]), where, args)
    {
      var like := Text("%" + terms[i] + "%");
      LikeSpelling(engine, like);
      TermStep(engine, cs, terms, i, where, args, LikeText(engine));
      where := where + [LikeText(engine)];
      args := args + [like, like];
    }
    assert terms[..|terms|] == terms;
  }

  function LikeText(engine: Engine): string {
    if engine.Postgres? then "(id ILIKE " + "?" + " OR name ILIKE " + "?" + ")"
    else "(id LIKE " + "?" + " OR name LIKE " + "?" + ")"
  }

  lemma TermCondsStep(cs: seq<Cond<Arg>>, terms: seq<string>, i: nat)
    requires i < |terms|
    ensures cs + TermConds(terms[..i + 1])
         == cs + TermConds(terms[..i]) + [LikeEither(Quoted(terms[i]), Quoted(terms[i]))]
  {}

  lemma TermStep(engine: Engine, cs: seq<Cond<Arg>>, terms: seq<string>, i: nat, where: seq<string>, args: seq<Arg>,
                 text: string)
    requires i < |terms| && Built(engine, cs + TermConds(terms[..i]), where, args)
    requires text == Render(engine, Anonymous(LikeEither(Quoted(terms[i]), Quoted(terms[i]))))
    ensures Built(engine, cs + TermConds(terms[..i + 1]),
                  where + [text], args + [Quoted(terms[i]), Quoted(terms[i])])
  {
    Append(engine, cs + TermConds(terms[..i]), where, args, LikeEither(Quoted(terms[i]), Quoted(terms[i])));
    TermCondsStep(cs, terms, i);
  }

  method AttrFragment(engine: Engine, f: Filter, ghost cs: seq<Cond<Arg>>, before: seq<string>, bound: seq<Arg>)
    returns (where: seq<string>, args: seq<Arg>)
    requires Built(engine, cs, before, bound)
    ensures Built(engine, cs + AttrConds(f), where, args)
  {
    where, args := before, bound;
    AttrSpelling(engine, Text(f.attrKey), Text(f.attrValue));
    if f.attrKey == "" {
      assert cs + [] == cs;
    } else if f.attrValue == "" {
      where, args := AppendIf(engine, cs, where, args, true, HasKeyText(engine), [Text(f.attrKey)], HasKey(Text(f.attrKey)));
    } else {
      where, args := AppendIf(engine, cs, where, args, true, KeyIsText(engine), [Text(f.attrKey), Text(f.attrValue)],
                              KeyIs(Text(f.attrKey), Text(f.attrValue)));
    }
  }

  ghost predicate Built(engine: Engine, cs: seq<Cond<Arg>>, where: seq<string>, args: seq<Arg>) {
    where == RenderAll(engine, AnonymousAll(cs)) && args == AllParams(cs)
  }

  /** Appending one fragment and its arguments. */
  lemma Append(engine: Engine, cs: seq<Cond<Arg>>, where: seq<string>, args: seq<Arg>, c: Cond<Arg>)
    requires Built(engine, cs, where, args)
    ensures Built(engine, cs + [c], where + [Render(engine, Anonymous(c))], args + Params(c))
  {
    assert (cs + [c])[..|cs|] == cs;
  }

  method AppendIf(engine: Engine, ghost cs: seq<Cond<Arg>>, before: seq<string>, bound: seq<Arg>,
                  on: bool, fragment: string, values: seq<Arg>, ghost c: Cond<Arg>)
    returns (where: seq<string>, args: seq<Arg>)
    requires Built(engine, cs, before, bound)
    requires on ==> fragment == Render(engine, Anonymous(c)) && values == Params(c)
    ensures Built(engine, cs + Opt(on, c), where, args)
  {
    where, args := before, bound;
    if on {
      Append(engine, cs, where, args, c);
      where, args := where + [fragment], args + values;
    } else {
      assert cs + [] == cs;
    }
  }

  method NameFragments(engine: Engine, f: Filter) returns (where: seq<string>, args: seq<Arg>)
    ensures Built(engine, NameConds(f), where, args)
  {
    ghost var c, d := Equals(Queue, Text(f.queue)), Equals(Name, Text(f.name));
    Spelling(engine, Text(f.queue));
    Spelling(engine, Text(f.name));
    where, args := AppendIf(engine, [], [], [], f.queue != "", "queue = " + "?", [Text(f.queue)], c);
    assert [] + Opt(f.queue != "", c) == Opt(f.queue != "", c);
    where, args := AppendIf(engine, Opt(f.queue != "", c), where, args, f.name != "", "name = " + "?", [Text(f.name)], d);
  }

  method WindowFragments(engine: Engine, f: Filter, ghost cs: seq<Cond<Arg>>, before: seq<string>, bound: seq<Arg>)
    returns (where: seq<string>, args: seq<Arg>)
    requires Built(engine, cs, before, bound)
    ensures Built(engine, cs + WindowConds(f), where, args)
  {
    ghost var c, d := EnqueuedUpTo(Micros(Unix(f.before))), Equals(Pattern, Text(f.pattern));
    Spelling(engine, Micros(Unix(f.before)));
    Spelling(engine, Text(f.pattern));
    where, args := AppendIf(engine, cs, before, bound, f.before != 0, "enqueued_at <= " + "?", [Micros(Unix(f.before))], c);
    where, args := AppendIf(engine, cs + Opt(f.before != 0, c), where, args, f.pattern != "", "pattern = " + "?",
                            [Text(f.pattern)], d);
    assert cs + WindowConds(f) == cs + Opt(f.before != 0, c) + Opt(f.pattern != "", d);
  }

  method StateFragment(engine: Engine, f: Filter, ghost cs: seq<Cond<Arg>>, before: seq<string>, bound: seq<Arg>)
    returns (where: seq<string>, args: seq<Arg>)
    requires Built(engine, cs, before, bound)
    ensures Built(engine, cs + Opt(f.states != [], StateIn(StateArgs(f.states))), where, args)
  {
    var placeholders, names := StatePlaceholders(f.states);
    where, args := AppendIf(engine, cs, before, bound, |f.states| > 0,
                            "state IN (" + Join(placeholders, ",") + ")", names, StateIn(StateArgs(f.states)));
  }

  method StatePlaceholders(states: seq<State>) returns (placeholders: seq<string>, names: seq<Arg>)
    ensures placeholders == Marks(|states|) && names == StateArgs(states)
  {
    placeholders, names := [], [];
    for i := 0 to |states|
      invariant placeholders == Marks(i) && names == StateArgs(states)[..i]
    {
      placeholders := placeholders + ["?"];
      names := names + [StateName(states[i])];
    }
  }
}
