/**
 Filter printing: the text that `gen_prop_filters` produces for the property filters of a
 query, and what that text means to a reader that gives NOT precedence over AND over OR.
 */
module QueryFilters {
  import opened Wrappers
  import opened QueryVars
  import opened Sequences

  datatype Op = EqOp | GtOp | GeOp | LtOp | LeOp

  datatype Cmp =
    | Compare(op: Op, pred: string, value: string, negated: bool)
    | Distance(pred: string, value: string, distance: string, negated: bool)
    | Has(pred: string, negated: bool)
    | Regex(pred: string, value: string, negated: bool)   // contains, starts with, ends with, rex

  type AndFilter = seq<Cmp>
  type OrFilter = seq<AndFilter>
  type PropertyFilters = seq<(string, OrFilter)>

  // Value to placeholder.
  type Placeholders = map<string, string>

  const TYPE_PREDICATE := "dgraph.type"

  predicate Kept(c: Cmp) {
    c.Compare? || c.Distance?
  }

  // ---------------------------------------------------------------- printing

  function OpName(op: Op): string {
    match op
    case EqOp => "eq"
    case GtOp => "gt"
    case GeOp => "ge"
    case LtOp => "lt"
    case LeOp => "le"
  }

  // to_filter, after the value was replaced by its placeholder
  function ToFilter(c: Cmp, v: string): string
    requires Kept(c)
  {
    match c
    case Compare(op, pred, _, negated) =>
      var text := if op == EqOp && pred == TYPE_PREDICATE then "type(" + (v + ")")
                  else OpName(op) + "(" + (pred + ", ") + (v + ")");
      if negated then "(NOT " + text + ")" else text
    case Distance(pred, _, distance, negated) =>
      var text := "distance(" + (pred + ", ") + (v + ", ") + (distance + ")");
      if negated then "NOT " + text else text
  }

  // The parts, each after the first behind a separator.
  function Tail(sep: string, parts: seq<string>): string {
    if parts == [] then "" else sep + parts[0] + Tail(sep, parts[1..])
  }

  function Join(sep: string, parts: seq<string>): string {
    if parts == [] then "" else parts[0] + Tail(sep, parts[1..])
  }

  function Group(sep: string, parts: seq<string>): string {
    if |parts| == 1 then Join(sep, parts) else "(" + Join(sep, parts) + ")"
  }

  predicate CoversAnd(ph: Placeholders, and_: AndFilter) {
    forall c | c in and_ && Kept(c) :: c.value in ph
  }

  predicate CoversOr(ph: Placeholders, or_: OrFilter) {
    forall and_ | and_ in or_ :: CoversAnd(ph, and_)
  }

  predicate Covers(ph: Placeholders, filters: PropertyFilters) {
    forall f | f in filters :: CoversOr(ph, f.1)
  }

  // The printed atoms of a conjunction; Has and regex atoms are dropped.
  function Andeds(ph: Placeholders, and_: AndFilter): seq<string>
    requires CoversAnd(ph, and_)
  {
    if and_ == [] then [] else
    var front, last := and_[..|and_| - 1], and_[|and_| - 1];
    Andeds(ph, front) + (if Kept(last) then [ToFilter(last, ph[last.value])] else [])
  }

  // The printed conjunctions of a disjunction; empty ones are dropped.
  function Oreds(ph: Placeholders, or_: OrFilter): seq<string>
    requires CoversOr(ph, or_)
  {
    if or_ == [] then [] else
    var front, last := or_[..|or_| - 1], or_[|or_| - 1];
    Oreds(ph, front) + (if Andeds(ph, last) == [] then [] else [Group(" AND ", Andeds(ph, last))])
  }

  // The printed properties; those with nothing printed are dropped.
  function Props(ph: Placeholders, filters: PropertyFilters): seq<string>
    requires Covers(ph, filters)
  {
    if filters == [] then [] else
    var front, last := filters[..|filters| - 1], filters[|filters| - 1];
    Props(ph, front) + (if Oreds(ph, last.1) == [] then [] else [Group(" OR ", Oreds(ph, last.1))])
  }

  function Printed(ph: Placeholders, filters: PropertyFilters): Option<string>
    requires Covers(ph, filters)
  {
    if Props(ph, filters) == [] then None else Some(Join(" AND ", Props(ph, filters)))
  }

  // Allocating more placeholders does not change what was printed.
  predicate Extends(ph: Placeholders, more: Placeholders) {
    forall v | v in ph :: v in more && more[v] == ph[v]
  }

  lemma {:induction false} AndedsStable(ph: Placeholders, more: Placeholders, and_: AndFilter)
    requires CoversAnd(ph, and_) && Extends(ph, more)
    ensures CoversAnd(more, and_) && Andeds(more, and_) == Andeds(ph, and_)
  {
    if and_ != [] {
      AndedsStable(ph, more, and_[..|and_| - 1]);
    }
  }

  lemma {:induction false} OredsStable(ph: Placeholders, more: Placeholders, or_: OrFilter)
    requires CoversOr(ph, or_) && Extends(ph, more)
    ensures CoversOr(more, or_) && Oreds(more, or_) == Oreds(ph, or_)
  {
    if or_ != [] {
      OredsStable(ph, more, or_[..|or_| - 1]);
      AndedsStable(ph, more, or_[|or_| - 1]);
      assert forall and_ | and_ in or_ :: and_ in or_[..|or_| - 1] || and_ == or_[|or_| - 1];
    }
  }

  lemma {:induction false} PropsStable(ph: Placeholders, more: Placeholders, filters: PropertyFilters)
    requires Covers(ph, filters) && Extends(ph, more)
    ensures Covers(more, filters) && Props(more, filters) == Props(ph, filters)
  {
    if filters != [] {
      PropsStable(ph, more, filters[..|filters| - 1]);
      OredsStable(ph, more, filters[|filters| - 1].1);
      assert forall f | f in filters :: f in filters[..|filters| - 1] || f == filters[|filters| - 1];
    }
  }

  method GenAnd(vars: VarAllocator, and_: AndFilter) returns (andeds: seq<string>)
    requires vars.Valid()
    modifies vars
    ensures vars.Valid() && Extends(old(vars.placeholders), vars.placeholders)
    ensures CoversAnd(vars.placeholders, and_) && andeds == Andeds(vars.placeholders, and_)
  {
    andeds := [];
    for i := 0 to |and_|
      invariant vars.Valid() && Extends(old(vars.placeholders), vars.placeholders)
      invariant CoversAnd(vars.placeholders, and_[..i]) && andeds == Andeds(vars.placeholders, and_[..i])
    {
      var f := and_[i];
      assert and_[..i + 1][..i] == and_[..i];
      ghost var ph := vars.placeholders;
      if f.Has? || f.Regex? {
        assert andeds + [] == andeds;
      } else {
        var v := vars.Alloc(f.value);
        andeds := andeds + [ToFilter(f, v)];
      }
      AndedsStable(ph, vars.placeholders, and_[..i]);
    }
    assert and_[..|and_|] == and_;
  }

  method GenOr(vars: VarAllocator, or_: OrFilter) returns (oreds: seq<string>)
    requires vars.Valid()
    modifies vars
    ensures vars.Valid() && Extends(old(vars.placeholders), vars.placeholders)
    ensures CoversOr(vars.placeholders, or_) && oreds == Oreds(vars.placeholders, or_)
  {
    oreds := [];
    for i := 0 to |or_|
      invariant vars.Valid() && Extends(old(vars.placeholders), vars.placeholders)
      invariant CoversOr(vars.placeholders, or_[..i]) && oreds == Oreds(vars.placeholders, or_[..i])
    {
      assert or_[..i + 1][..i] == or_[..i];
      ghost var ph := vars.placeholders;
      var andeds := GenAnd(vars, or_[i]);
      OredsStable(ph, vars.placeholders, or_[..i]);
      assert oreds + [] == oreds;
      if andeds != [] {
        var anded := Join(" AND ", andeds);
        if |andeds| != 1 {
          anded := "(" + anded + ")";
        }
        oreds := oreds + [anded];
      }
    }
    assert or_[..|or_|] == or_;
  }

  // One more property, whose values were allocated after those before it.
  lemma PropsNext(ph: Placeholders, more: Placeholders, filters: PropertyFilters, i: nat)
    requires i < |filters| && Covers(ph, filters[..i]) && Extends(ph, more) && CoversOr(more, filters[i].1)
    ensures Covers(more, filters[..i + 1])
    ensures var oreds := Oreds(more, filters[i].1);
            Props(more, filters[..i + 1]) ==
            if oreds == [] then Props(ph, filters[..i]) else Props(ph, filters[..i]) + [Group(" OR ", oreds)]
  {
    TakeNext(filters, i);
    assert filters[..i + 1][..i] == filters[..i];
    PropsStable(ph, more, filters[..i]);
    assert Props(more, filters[..i]) + [] == Props(more, filters[..i]);
  }

  method GenPropFilters(vars: VarAllocator, filters: PropertyFilters) returns (text: Option<string>)
    requires vars.Valid()
    modifies vars
    ensures vars.Valid() && Extends(old(vars.placeholders), vars.placeholders)
    ensures Covers(vars.placeholders, filters) && text == Printed(vars.placeholders, filters)
  {
    var props: seq<string> := [];
    for i := 0 to |filters|
      invariant vars.Valid() && Extends(old(vars.placeholders), vars.placeholders)
      invariant Covers(vars.placeholders, filters[..i]) && props == Props(vars.placeholders, filters[..i])
    {
      ghost var ph := vars.placeholders;
      var oreds := GenOr(vars, filters[i].1);
      PropsNext(ph, vars.placeholders, filters, i);
      if oreds != [] {
        var ored := Join(" OR ", oreds);
        if |oreds| != 1 {
          ored := "(" + ored + ")";
        }
        props := props + [ored];
      }
    }
    assert filters[..|filters|] == filters;
    text := if props == [] then None else Some(Join(" AND ", props));
  }

  // ---------------------------------------------------------------- reading

  datatype Token = Word(text: string) | Open | Close | Comma

  predicate WordChar(c: char) {
    c != ' ' && c != '(' && c != ')' && c != ','
  }

  predicate IsWord(s: string) {
    s != "" && forall c | c in s :: WordChar(c)
  }

  function Flush(word: string): seq<Token> {
    if word == "" then [] else [Word(word)]
  }

  function Lex(word: string, s: string): seq<Token>
    decreases |s|
  {
    if s == "" then Flush(word)
    else if WordChar(s[0]) then Lex(word + [s[0]], s[1..])
    else
      Flush(word)
      + (if s[0] == '(' then [Open] else if s[0] == ')' then [Close] else if s[0] == ',' then [Comma] else [])
      + Lex("", s[1..])
  }

  datatype Expr =
    | Call(func: string, args: seq<string>)
    | Not(e: Expr)
    | And(left: Expr, right: Expr)
    | Or(left: Expr, right: Expr)

  type Parsed = Option<(Expr, seq<Token>)>

  // or := and { OR and };  and := unary { AND unary };  unary := NOT unary | ( or ) | call
  function ParseOr(ts: seq<Token>): (r: Parsed)
    ensures r.Some? ==> |r.value.1| < |ts|
    decreases |ts|, 4
  {
    var first := ParseAnd(ts);
    if first.None? then None else OrTail(first.value.0, first.value.1)
  }

  function OrTail(acc: Expr, ts: seq<Token>): (r: Parsed)
    ensures r.Some? ==> |r.value.1| <= |ts|
    decreases |ts|, 3
  {
    if ts == [] || ts[0] != Word("OR") then Some((acc, ts)) else
    var next := ParseAnd(ts[1..]);
    if next.None? then None else OrTail(Or(acc, next.value.0), next.value.1)
  }

  function ParseAnd(ts: seq<Token>): (r: Parsed)
    ensures r.Some? ==> |r.value.1| < |ts|
    decreases |ts|, 2
  {
    var first := ParseUnary(ts);
    if first.None? then None else AndTail(first.value.0, first.value.1)
  }

  function AndTail(acc: Expr, ts: seq<Token>): (r: Parsed)
    ensures r.Some? ==> |r.value.1| <= |ts|
    decreases |ts|, 1
  {
    if ts == [] || ts[0] != Word("AND") then Some((acc, ts)) else
    var next := ParseUnary(ts[1..]);
    if next.None? then None else AndTail(And(acc, next.value.0), next.value.1)
  }

  function ParseUnary(ts: seq<Token>): (r: Parsed)
    ensures r.Some? ==> |r.value.1| < |ts|
    decreases |ts|, 0
  {
    if ts == [] then None
    else if ts[0] == Open then
      var inner := ParseOr(ts[1..]);
      if inner.None? || inner.value.1 == [] || inner.value.1[0] != Close then None
      else Some((inner.value.0, inner.value.1[1..]))
    else if ts[0] == Word("NOT") then
      var inner := ParseUnary(ts[1..]);
      if inner.None? then None else Some((Not(inner.value.0), inner.value.1))
    else if ts[0].Word? && |ts| > 1 && ts[1] == Open then
      ParseArgs(ts[0].text, [], ts[2..])
    else
      None
  }

  function ParseArgs(func: string, args: seq<string>, ts: seq<Token>): (r: Parsed)
    ensures r.Some? ==> |r.value.1| < |ts|
    decreases |ts|
  {
    if |ts| < 2 || !ts[0].Word? then None
    else if ts[1] == Close then Some((Call(func, args + [ts[0].text]), ts[2..]))
    else if ts[1] == Comma then ParseArgs(func, args + [ts[0].text], ts[2..])
    else None
  }

  function Parse(text: string): Option<Expr> {
    var r := ParseOr(Lex("", text));
    if r.Some? && r.value.1 == [] then Some(r.value.0) else None
  }

  // ---------------------------------------------------------------- meaning

  // How a stored value compares with the value of a filter.
  datatype Order = Smaller | Same | Greater | Unrelated

  // The comparisons of the database: of a stored value with the value of a filter, and
  // whether it is within an edit distance of it.
  datatype Database = Database(compare: (string, string) -> Order, within: (string, string, string) -> bool)

  // The values that a node stores for each predicate.
  type Node = string -> set<string>

  // What an operator asks of a comparison.
  predicate Asks(op: Op, o: Order) {
    match op
    case EqOp => o == Same
    case GtOp => o == Greater
    case GeOp => o == Greater || o == Same
    case LtOp => o == Smaller
    case LeOp => o == Smaller || o == Same
  }

  // Whether a node with these values for the predicate of the atom satisfies it.
  predicate AtomHolds(db: Database, values: set<string>, c: Cmp)
    requires Kept(c)
  {
    match c
    case Compare(op, _, value, negated) => (exists x | x in values :: Asks(op, db.compare(x, value))) != negated
    case Distance(_, value, distance, negated) => (exists x | x in values :: db.within(x, value, distance)) != negated
  }

  predicate CmpHolds(db: Database, node: Node, c: Cmp)
    requires Kept(c)
  {
    AtomHolds(db, node(c.pred), c)
  }

  // What the functions of the query language ask of a stored value.
  predicate Function2Holds(db: Database, func: string, x: string, value: string) {
    || (func == "eq" && db.compare(x, value) == Same)
    || (func == "gt" && db.compare(x, value) == Greater)
    || (func == "ge" && (db.compare(x, value) == Same || db.compare(x, value) == Greater))
    || (func == "lt" && db.compare(x, value) == Smaller)
    || (func == "le" && (db.compare(x, value) == Same || db.compare(x, value) == Smaller))
  }

  function Value(variables: map<string, string>, v: string): string {
    if v in variables then variables[v] else v
  }

  // The meaning of a parsed expression, with the query's variables substituted.
  predicate Eval(db: Database, node: Node, variables: map<string, string>, e: Expr) {
    match e
    case Call(func, args) =>
      if func == "type" && |args| == 1 then
        exists x | x in node("dgraph.type") :: db.compare(x, Value(variables, args[0])) == Same
      else if |args| == 2 then
        exists x | x in node(args[0]) :: Function2Holds(db, func, x, Value(variables, args[1]))
      else
        func == "distance" && |args| == 3 && exists x | x in node(args[0]) :: db.within(x, Value(variables, args[1]), args[2])
    case Not(x) => !Eval(db, node, variables, x)
    case And(a, b) => Eval(db, node, variables, a) && Eval(db, node, variables, b)
    case Or(a, b) => Eval(db, node, variables, a) || Eval(db, node, variables, b)
  }

  predicate KeptAndHolds(db: Database, node: Node, and_: AndFilter) {
    forall c | c in and_ && Kept(c) :: CmpHolds(db, node, c)
  }

  predicate AllDropped(and_: AndFilter) {
    forall c | c in and_ :: c.Has? || c.Regex?
  }

  // What the printed filter of a property says.
  predicate KeptOrHolds(db: Database, node: Node, or_: OrFilter) {
    (forall and_ | and_ in or_ :: AllDropped(and_))
    || exists and_ | and_ in or_ :: !AllDropped(and_) && KeptAndHolds(db, node, and_)
  }

  // ---------------------------------------------------------------- lexing what was printed

  // `text` lexes to `toks` whatever follows it.
  ghost predicate Closed(text: string, toks: seq<Token>) {
    forall s: string :: Lex("", text + s) == toks + Lex("", s)
  }

  lemma ClosedConcat(a: string, ta: seq<Token>, b: string, tb: seq<Token>)
    requires Closed(a, ta) && Closed(b, tb)
    ensures Closed(a + b, ta + tb)
  {
    forall s: string
      ensures Lex("", (a + b) + s) == (ta + tb) + Lex("", s)
    {
      Regroup(a, b, s);
      assert Lex("", a + (b + s)) == ta + Lex("", b + s);
      assert Lex("", b + s) == tb + Lex("", s);
      Regroup(ta, tb, Lex("", s));
    }
  }

  lemma {:induction false} LexWord(word: string, w: string, s: string)
    requires forall c | c in w :: WordChar(c)
    ensures Lex(word, w + s) == Lex(word + w, s)
    decreases |w|
  {
    if w == "" {
      assert w + s == s && word + w == word;
    } else {
      assert (w + s)[0] == w[0] && (w + s)[1..] == w[1..] + s;
      LexWord(word + [w[0]], w[1..], s);
      assert word + [w[0]] + w[1..] == word + w;
    }
  }

  function Delimiter(d: char): seq<Token> {
    if d == '(' then [Open] else if d == ')' then [Close] else if d == ',' then [Comma] else []
  }

  // A word closed by a delimiter, with a space after it or not.
  lemma ClosedWord(w: string, d: char)
    requires IsWord(w) && !WordChar(d)
    ensures Closed(w + [d], [Word(w)] + Delimiter(d))
    ensures Closed(w + [d] + " ", [Word(w)] + Delimiter(d))
  {
    forall s: string
      ensures Lex("", w + [d] + s) == [Word(w)] + Delimiter(d) + Lex("", s)
    {
      Regroup(w, [d], s);
      LexWord("", w, [d] + s);
      assert "" + w == w;
      assert ([d] + s)[1..] == s;
    }
    forall s: string
      ensures Lex("", w + [d] + " " + s) == [Word(w)] + Delimiter(d) + Lex("", s)
    {
      Regroup(w + [d], " ", s);
      assert (" " + s)[1..] == s;
      assert Lex("", " " + s) == [] + [] + Lex("", s);
    }
  }

  lemma ClosedDelimiter(d: char)
    requires !WordChar(d)
    ensures Closed([d], Delimiter(d))
  {
    forall s: string
      ensures Lex("", [d] + s) == Delimiter(d) + Lex("", s)
    {
      assert ([d] + s)[1..] == s;
    }
  }

  // " AND ", " OR "
  lemma ClosedSeparator(w: string)
    requires IsWord(w)
    ensures Closed(" " + w + " ", [Word(w)])
  {
    ClosedDelimiter(' ');
    ClosedWord(w, ' ');
    ClosedConcat([' '], [], w + [' '], [Word(w)]);
    assert " " + w + " " == [' '] + (w + [' ']);
    assert [] + [Word(w)] == [Word(w)];
  }

  // ---------------------------------------------------------------- parsing what was printed

  predicate StartsWith(ts: seq<Token>, w: string) {
    ts != [] && ts[0] == Word(w)
  }

  // Tokens that read as `e` wherever they stand, before anything but AND, and before
  // anything but AND and OR.
  ghost predicate UnaryLevel(toks: seq<Token>, e: Expr) {
    forall rest: seq<Token> :: ParseUnary(toks + rest) == Some((e, rest))
  }

  ghost predicate AndLevel(toks: seq<Token>, e: Expr) {
    forall rest: seq<Token> :: !StartsWith(rest, "AND") ==> ParseAnd(toks + rest) == Some((e, rest))
  }

  ghost predicate OrLevel(toks: seq<Token>, e: Expr) {
    forall rest: seq<Token> :: !StartsWith(rest, "AND") && !StartsWith(rest, "OR") ==> ParseOr(toks + rest) == Some((e, rest))
  }

  ghost predicate Reads(text: string, e: Expr) {
    exists toks: seq<Token> :: Closed(text, toks) && UnaryLevel(toks, e)
  }

  ghost predicate ReadsOr(text: string, e: Expr) {
    exists toks: seq<Token> :: Closed(text, toks) && OrLevel(toks, e)
  }

  lemma LevelsNest(toks: seq<Token>, e: Expr)
    ensures UnaryLevel(toks, e) ==> AndLevel(toks, e)
    ensures AndLevel(toks, e) ==> OrLevel(toks, e)
  {
    if UnaryLevel(toks, e) {
      forall rest: seq<Token> | !StartsWith(rest, "AND")
        ensures ParseAnd(toks + rest) == Some((e, rest))
      {
        assert ParseUnary(toks + rest) == Some((e, rest));
      }
    }
    if AndLevel(toks, e) {
      forall rest: seq<Token> | !StartsWith(rest, "AND") && !StartsWith(rest, "OR")
        ensures ParseOr(toks + rest) == Some((e, rest))
      {
        assert ParseAnd(toks + rest) == Some((e, rest));
      }
    }
  }

  lemma ParenUnary(toks: seq<Token>, e: Expr)
    requires OrLevel(toks, e)
    ensures UnaryLevel([Open] + toks + [Close], e)
  {
    forall rest: seq<Token>
      ensures ParseUnary([Open] + toks + [Close] + rest) == Some((e, rest))
    {
      AfterKeyword(Open, toks, [Close], rest);
      assert ([Close] + rest)[1..] == rest;
      assert ParseOr(toks + ([Close] + rest)) == Some((e, [Close] + rest));
    }
  }

  lemma ParenReads(text: string, e: Expr)
    requires ReadsOr(text, e)
    ensures Reads("(" + text + ")", e)
  {
    var toks :| Closed(text, toks) && OrLevel(toks, e);
    ClosedDelimiter('(');
    ClosedDelimiter(')');
    ClosedConcat("(", [Open], text, toks);
    ClosedConcat("(" + text, [Open] + toks, ")", [Close]);
    ParenUnary(toks, e);
  }

  lemma NotUnary(toks: seq<Token>, e: Expr)
    requires UnaryLevel(toks, e)
    ensures UnaryLevel([Word("NOT")] + toks, Not(e))
  {
    var all := [Word("NOT")] + toks;
    forall rest: seq<Token>
      ensures ParseUnary(all + rest) == Some((Not(e), rest))
    {
      assert (all + rest)[1..] == toks + rest;
    }
  }

  lemma NotReads(text: string, e: Expr)
    requires Reads(text, e)
    ensures Reads("NOT " + text, Not(e))
  {
    var toks :| Closed(text, toks) && UnaryLevel(toks, e);
    ClosedWord("NOT", ' ');
    assert "NOT" + [' '] == "NOT ";
    assert [Word("NOT")] + Delimiter(' ') == [Word("NOT")];
    ClosedConcat("NOT ", [Word("NOT")], text, toks);
    NotUnary(toks, e);
  }

  lemma ReadsGivesOr(text: string, e: Expr)
    requires Reads(text, e)
    ensures ReadsOr(text, e)
  {
    var toks :| Closed(text, toks) && UnaryLevel(toks, e);
    LevelsNest(toks, e);
  }

  lemma CallReads(func: string, args: seq<string>, text: string, toks: seq<Token>)
    requires func != "NOT"
    requires Closed(text, [Word(func), Open] + toks)
    requires forall rest: seq<Token> :: ParseArgs(func, [], toks + rest) == Some((Call(func, args), rest))
    ensures Reads(text, Call(func, args))
  {
    var all := [Word(func), Open] + toks;
    forall rest: seq<Token>
      ensures ParseUnary(all + rest) == Some((Call(func, args), rest))
    {
      assert (all + rest)[2..] == toks + rest;
    }
    assert UnaryLevel(all, Call(func, args));
  }

  lemma ClosedCall(func: string)
    requires IsWord(func)
    ensures Closed(func + "(", [Word(func), Open])
  {
    ClosedWord(func, '(');
    assert func + ['('] == func + "(";
    assert [Word(func)] + Delimiter('(') == [Word(func), Open];
  }

  lemma ClosedArg(arg: string)
    requires IsWord(arg)
    ensures Closed(arg + ", ", [Word(arg), Comma])
    ensures Closed(arg + ")", [Word(arg), Close])
  {
    ClosedWord(arg, ',');
    ClosedWord(arg, ')');
    assert arg + [','] + " " == arg + ", " && arg + [')'] == arg + ")";
    assert [Word(arg)] + Delimiter(',') == [Word(arg), Comma];
    assert [Word(arg)] + Delimiter(')') == [Word(arg), Close];
  }

  lemma OneArgReads(func: string, v: string)
    requires IsWord(func) && IsWord(v) && func != "NOT"
    ensures Reads(func + "(" + (v + ")"), Call(func, [v]))
  {
    ClosedCall(func);
    ClosedArg(v);
    ClosedConcat(func + "(", [Word(func), Open], v + ")", [Word(v), Close]);
    forall rest: seq<Token>
      ensures ParseArgs(func, [], [Word(v), Close] + rest) == Some((Call(func, [v]), rest))
    {
      assert ([Word(v), Close] + rest)[2..] == rest;
      assert [] + [v] == [v];
    }
    CallReads(func, [v], func + "(" + (v + ")"), [Word(v), Close]);
  }

  lemma TwoArgsRead(func: string, p: string, v: string)
    requires IsWord(func) && IsWord(p) && IsWord(v) && func != "NOT"
    ensures Reads(func + "(" + (p + ", ") + (v + ")"), Call(func, [p, v]))
  {
    ClosedCall(func);
    ClosedArg(p);
    ClosedArg(v);
    ClosedConcat(func + "(", [Word(func), Open], p + ", ", [Word(p), Comma]);
    ClosedConcat(func + "(" + (p + ", "), [Word(func), Open] + [Word(p), Comma], v + ")", [Word(v), Close]);
    var toks := [Word(p), Comma, Word(v), Close];
    assert [Word(func), Open] + [Word(p), Comma] + [Word(v), Close] == [Word(func), Open] + toks;
    forall rest: seq<Token>
      ensures ParseArgs(func, [], toks + rest) == Some((Call(func, [p, v]), rest))
    {
      assert (toks + rest)[2..] == [Word(v), Close] + rest;
      assert ([Word(v), Close] + rest)[2..] == rest;
      assert [] + [p] + [v] == [p, v];
    }
    CallReads(func, [p, v], func + "(" + (p + ", ") + (v + ")"), toks);
  }

  lemma ThreeArgsRead(func: string, p: string, v: string, d: string)
    requires IsWord(func) && IsWord(p) && IsWord(v) && IsWord(d) && func != "NOT"
    ensures Reads(func + "(" + (p + ", ") + (v + ", ") + (d + ")"), Call(func, [p, v, d]))
  {
    ClosedCall(func);
    ClosedArg(p);
    ClosedArg(v);
    ClosedArg(d);
    ClosedConcat(func + "(", [Word(func), Open], p + ", ", [Word(p), Comma]);
    ClosedConcat(func + "(" + (p + ", "), [Word(func), Open] + [Word(p), Comma], v + ", ", [Word(v), Comma]);
    ClosedConcat(func + "(" + (p + ", ") + (v + ", "), [Word(func), Open] + [Word(p), Comma] + [Word(v), Comma], d + ")", [Word(d), Close]);
    var toks := [Word(p), Comma, Word(v), Comma, Word(d), Close];
    assert [Word(func), Open] + [Word(p), Comma] + [Word(v), Comma] + [Word(d), Close] == [Word(func), Open] + toks;
    forall rest: seq<Token>
      ensures ParseArgs(func, [], toks + rest) == Some((Call(func, [p, v, d]), rest))
    {
      var r1, r2 := [Word(v), Comma, Word(d), Close] + rest, [Word(d), Close] + rest;
      assert (toks + rest)[2..] == r1 && r1[2..] == r2 && r2[2..] == rest;
      assert ParseArgs(func, [p, v], r2) == Some((Call(func, [p, v] + [d]), rest));
      assert ParseArgs(func, [p], r1) == ParseArgs(func, [p] + [v], r2);
      assert [p] + [v] == [p, v] && [p, v] + [d] == [p, v, d];
      assert ParseArgs(func, [], toks + rest) == ParseArgs(func, [] + [p], r1);
      assert [] + [p] == [p];
    }
    CallReads(func, [p, v, d], func + "(" + (p + ", ") + (v + ", ") + (d + ")"), toks);
  }

  // ---------------------------------------------------------------- atoms

  // Predicate names and distances are words of the query language.
  predicate CmpOk(c: Cmp) {
    Kept(c) ==> IsWord(c.pred) && (c.Distance? ==> IsWord(c.distance))
  }

  function AtomExpr(c: Cmp, v: string): Expr
    requires Kept(c)
  {
    var call :=
      match c
      case Compare(op, pred, _, _) =>
        if op == EqOp && pred == TYPE_PREDICATE then Call("type", [v]) else Call(OpName(op), [pred, v])
      case Distance(pred, _, distance, _) => Call("distance", [pred, v, distance]);
    if c.negated then Not(call) else call
  }

  lemma AtomReads(c: Cmp, v: string)
    requires Kept(c) && CmpOk(c) && IsWord(v)
    ensures Reads(ToFilter(c, v), AtomExpr(c, v))
  {
    var plain := match c
      case Compare(op, pred, value, _) => Compare(op, pred, value, false)
      case Distance(pred, value, distance, _) => Distance(pred, value, distance, false);
    var text, e := ToFilter(plain, v), AtomExpr(plain, v);
    assert Reads(text, e) by {
      if c.Distance? {
        assert IsWord("distance");
        ThreeArgsRead("distance", c.pred, v, c.distance);
        assert "distance" + "(" == "distance(";
      } else if c.op == EqOp && c.pred == TYPE_PREDICATE {
        assert IsWord("type");
        OneArgReads("type", v);
        assert "type" + "(" == "type(";
      } else {
        assert IsWord(OpName(c.op));
        TwoArgsRead(OpName(c.op), c.pred, v);
      }
    }
    if c.negated {
      NotReads(text, e);
      if c.Compare? {
        ReadsGivesOr("NOT " + text, Not(e));
        ParenReads("NOT " + text, Not(e));
        assert "(" + ("NOT " + text) + ")" == "(NOT " + text + ")";
      }
    }
  }

  // A value that satisfies an operator satisfies the function it is printed as, and only then.
  lemma OpNamed(db: Database, op: Op, x: string, value: string)
    ensures Function2Holds(db, OpName(op), x, value) <==> Asks(op, db.compare(x, value))
  {
  }

  lemma CallsEval(db: Database, node: Node, variables: map<string, string>, func: string, p: string, v: string, d: string)
    ensures Eval(db, node, variables, Call("type", [v])) <==>
            exists x | x in node("dgraph.type") :: db.compare(x, Value(variables, v)) == Same
    ensures Eval(db, node, variables, Call(func, [p, v])) <==>
            exists x | x in node(p) :: Function2Holds(db, func, x, Value(variables, v))
    ensures Eval(db, node, variables, Call("distance", [p, v, d])) <==>
            exists x | x in node(p) :: db.within(x, Value(variables, v), d)
  {
    var one, two, three := [v], [p, v], [p, v, d];
    assert one[0] == v && two[0] == p && two[1] == v && three[0] == p && three[1] == v && three[2] == d;
    forall x
      ensures x in node(three[0]) && db.within(x, Value(variables, three[1]), three[2]) <==>
              x in node(p) && db.within(x, Value(variables, v), d)
    {
    }
  }

  lemma AtomEval(db: Database, node: Node, ph: Placeholders, variables: map<string, string>, c: Cmp)
    requires Kept(c) && c.value in ph && Inverse(ph, variables)
    ensures Eval(db, node, variables, AtomExpr(c, ph[c.value])) <==> CmpHolds(db, node, c)
  {
    var v := ph[c.value];
    assert Value(variables, v) == c.value;
    match c
    case Compare(op, p, _, _) =>
      CallsEval(db, node, variables, OpName(op), p, v, "");
      forall x | x in node(p)
        ensures Function2Holds(db, OpName(op), x, c.value) <==> Asks(op, db.compare(x, c.value))
      {
        OpNamed(db, op, x, c.value);
      }
    case Distance(p, _, d, _) => CallsEval(db, node, variables, "", p, v, d);
  }

  // ---------------------------------------------------------------- joins

  function FoldAnd(acc: Expr, es: seq<Expr>): Expr
    decreases |es|
  {
    if es == [] then acc else FoldAnd(And(acc, es[0]), es[1..])
  }

  function FoldOr(acc: Expr, es: seq<Expr>): Expr
    decreases |es|
  {
    if es == [] then acc else FoldOr(Or(acc, es[0]), es[1..])
  }

  lemma {:induction false} FoldAndEval(db: Database, node: Node, variables: map<string, string>, acc: Expr, es: seq<Expr>)
    ensures Eval(db, node, variables, FoldAnd(acc, es)) <==>
            Eval(db, node, variables, acc) && forall e | e in es :: Eval(db, node, variables, e)
    decreases |es|
  {
    if es != [] {
      FoldAndEval(db, node, variables, And(acc, es[0]), es[1..]);
      assert es[0] in es && forall e | e in es :: e == es[0] || e in es[1..];
    }
  }

  lemma {:induction false} FoldOrEval(db: Database, node: Node, variables: map<string, string>, acc: Expr, es: seq<Expr>)
    ensures Eval(db, node, variables, FoldOr(acc, es)) <==>
            Eval(db, node, variables, acc) || exists e | e in es :: Eval(db, node, variables, e)
    decreases |es|
  {
    if es != [] {
      FoldOrEval(db, node, variables, Or(acc, es[0]), es[1..]);
      assert es[0] in es && forall e | e in es :: e == es[0] || e in es[1..];
    }
  }

  ghost predicate AllRead(texts: seq<string>, es: seq<Expr>) {
    |texts| == |es| && forall i | 0 <= i < |texts| :: Reads(texts[i], es[i])
  }

  ghost predicate AndTailReads(toks: seq<Token>, es: seq<Expr>) {
    forall acc: Expr, rest: seq<Token> :: !StartsWith(rest, "AND") ==> AndTail(acc, toks + rest) == Some((FoldAnd(acc, es), rest))
  }

  ghost predicate OrTailReads(toks: seq<Token>, es: seq<Expr>) {
    && (toks == [] || toks[0] == Word("OR"))
    && forall acc: Expr, rest: seq<Token> :: !StartsWith(rest, "AND") && !StartsWith(rest, "OR") ==>
         OrTail(acc, toks + rest) == Some((FoldOr(acc, es), rest))
  }

  lemma ClosedEmpty()
    ensures Closed("", [])
  {
    forall s: string
      ensures Lex("", "" + s) == [] + Lex("", s)
    {
      assert "" + s == s;
    }
  }

  lemma AfterKeyword(keyword: Token, first: seq<Token>, more: seq<Token>, rest: seq<Token>)
    ensures var toks := [keyword] + first + more + rest; toks[0] == keyword && toks[1..] == first + (more + rest)
  {
  }

  lemma AndTailStep(first: seq<Token>, e: Expr, more: seq<Token>, es: seq<Expr>)
    requires UnaryLevel(first, e) && AndTailReads(more, es)
    ensures AndTailReads([Word("AND")] + first + more, [e] + es)
  {
    var toks := [Word("AND")] + first + more;
    forall acc: Expr, rest: seq<Token> | !StartsWith(rest, "AND")
      ensures AndTail(acc, toks + rest) == Some((FoldAnd(acc, [e] + es), rest))
    {
      AfterKeyword(Word("AND"), first, more, rest);
      assert ParseUnary(first + (more + rest)) == Some((e, more + rest));
      assert ([e] + es)[1..] == es;
    }
  }

  lemma OrTailStep(first: seq<Token>, e: Expr, more: seq<Token>, es: seq<Expr>)
    requires AndLevel(first, e) && OrTailReads(more, es)
    ensures OrTailReads([Word("OR")] + first + more, [e] + es)
  {
    var toks := [Word("OR")] + first + more;
    forall acc: Expr, rest: seq<Token> | !StartsWith(rest, "AND") && !StartsWith(rest, "OR")
      ensures OrTail(acc, toks + rest) == Some((FoldOr(acc, [e] + es), rest))
    {
      AfterKeyword(Word("OR"), first, more, rest);
      assert !StartsWith(more + rest, "AND");
      assert ParseAnd(first + (more + rest)) == Some((e, more + rest));
      assert ([e] + es)[1..] == es;
    }
  }

  lemma ClosedTail(w: string, first: string, firstToks: seq<Token>, more: string, moreToks: seq<Token>)
    requires IsWord(w) && Closed(first, firstToks) && Closed(more, moreToks)
    ensures Closed(" " + w + " " + first + more, [Word(w)] + firstToks + moreToks)
  {
    ClosedSeparator(w);
    ClosedConcat(" " + w + " ", [Word(w)], first, firstToks);
    ClosedConcat(" " + w + " " + first, [Word(w)] + firstToks, more, moreToks);
  }

  lemma EmptyTailsRead()
    ensures Closed("", []) && AndTailReads([], []) && OrTailReads([], [])
  {
    ClosedEmpty();
    assert forall rest: seq<Token> :: [] + rest == rest;
  }

  lemma {:induction false} AndTailOf(texts: seq<string>, es: seq<Expr>) returns (toks: seq<Token>)
    requires AllRead(texts, es)
    ensures Closed(Tail(" AND ", texts), toks) && AndTailReads(toks, es)
    decreases |texts|
  {
    toks := [];
    EmptyTailsRead();
    if texts != [] {
      assert Reads(texts[0], es[0]);
      var first :| Closed(texts[0], first) && UnaryLevel(first, es[0]);
      var more := AndTailOf(texts[1..], es[1..]);
      ClosedTail("AND", texts[0], first, Tail(" AND ", texts[1..]), more);
      assert " " + "AND" + " " == " AND ";
      AndTailStep(first, es[0], more, es[1..]);
      assert [es[0]] + es[1..] == es;
      toks := [Word("AND")] + first + more;
    }
  }

  lemma {:induction false} OrTailOf(texts: seq<string>, es: seq<Expr>) returns (toks: seq<Token>)
    requires AllRead(texts, es)
    ensures Closed(Tail(" OR ", texts), toks) && OrTailReads(toks, es)
    decreases |texts|
  {
    toks := [];
    EmptyTailsRead();
    if texts != [] {
      assert Reads(texts[0], es[0]);
      var first :| Closed(texts[0], first) && UnaryLevel(first, es[0]);
      LevelsNest(first, es[0]);
      var more := OrTailOf(texts[1..], es[1..]);
      ClosedTail("OR", texts[0], first, Tail(" OR ", texts[1..]), more);
      assert " " + "OR" + " " == " OR ";
      OrTailStep(first, es[0], more, es[1..]);
      assert [es[0]] + es[1..] == es;
      toks := [Word("OR")] + first + more;
    }
  }

  lemma JoinAndLevel(first: seq<Token>, e: Expr, more: seq<Token>, es: seq<Expr>)
    requires UnaryLevel(first, e) && AndTailReads(more, es)
    ensures AndLevel(first + more, FoldAnd(e, es))
  {
    forall rest: seq<Token> | !StartsWith(rest, "AND")
      ensures ParseAnd(first + more + rest) == Some((FoldAnd(e, es), rest))
    {
      Regroup(first, more, rest);
      assert ParseUnary(first + (more + rest)) == Some((e, more + rest));
    }
  }

  lemma JoinAndReads(texts: seq<string>, es: seq<Expr>)
    requires AllRead(texts, es) && texts != []
    ensures ReadsOr(Join(" AND ", texts), FoldAnd(es[0], es[1..]))
  {
    assert Reads(texts[0], es[0]);
    var first :| Closed(texts[0], first) && UnaryLevel(first, es[0]);
    var more := AndTailOf(texts[1..], es[1..]);
    ClosedConcat(texts[0], first, Tail(" AND ", texts[1..]), more);
    JoinAndLevel(first, es[0], more, es[1..]);
    LevelsNest(first + more, FoldAnd(es[0], es[1..]));
  }

  lemma JoinOrLevel(first: seq<Token>, e: Expr, more: seq<Token>, es: seq<Expr>)
    requires AndLevel(first, e) && OrTailReads(more, es)
    ensures OrLevel(first + more, FoldOr(e, es))
  {
    forall rest: seq<Token> | !StartsWith(rest, "AND") && !StartsWith(rest, "OR")
      ensures ParseOr(first + more + rest) == Some((FoldOr(e, es), rest))
    {
      Regroup(first, more, rest);
      assert !StartsWith(more + rest, "AND");
      assert ParseAnd(first + (more + rest)) == Some((e, more + rest));
      assert OrTail(e, more + rest) == Some((FoldOr(e, es), rest));
    }
  }

  lemma JoinOrReads(texts: seq<string>, es: seq<Expr>)
    requires AllRead(texts, es) && texts != []
    ensures ReadsOr(Join(" OR ", texts), FoldOr(es[0], es[1..]))
  {
    assert Reads(texts[0], es[0]);
    var first :| Closed(texts[0], first) && UnaryLevel(first, es[0]);
    LevelsNest(first, es[0]);
    var more := OrTailOf(texts[1..], es[1..]);
    ClosedConcat(texts[0], first, Tail(" OR ", texts[1..]), more);
    JoinOrLevel(first, es[0], more, es[1..]);
  }

  lemma GroupReads(texts: seq<string>, es: seq<Expr>)
    requires AllRead(texts, es) && texts != []
    ensures Reads(Group(" AND ", texts), FoldAnd(es[0], es[1..]))
    ensures Reads(Group(" OR ", texts), FoldOr(es[0], es[1..]))
  {
    if |texts| == 1 {
      assert texts[0] + "" == texts[0];
      assert Reads(texts[0], es[0]);
    } else {
      JoinAndReads(texts, es);
      JoinOrReads(texts, es);
      ParenReads(Join(" AND ", texts), FoldAnd(es[0], es[1..]));
      ParenReads(Join(" OR ", texts), FoldOr(es[0], es[1..]));
    }
  }

  // ---------------------------------------------------------------- the whole filter

  ghost predicate WordsOk(ph: Placeholders, or_: OrFilter) {
    (forall v | v in ph :: IsWord(ph[v])) && forall and_ | and_ in or_ :: forall c | c in and_ :: CmpOk(c)
  }

  lemma {:induction false} AndedsMean(ph: Placeholders, and_: AndFilter, db: Database, node: Node, variables: map<string, string>)
    returns (es: seq<Expr>)
    requires CoversAnd(ph, and_) && WordsOk(ph, [and_]) && Inverse(ph, variables)
    ensures AllRead(Andeds(ph, and_), es)
    ensures es == [] <==> AllDropped(and_)
    ensures (forall e | e in es :: Eval(db, node, variables, e)) <==> KeptAndHolds(db, node, and_)
    decreases |and_|
  {
    if and_ == [] {
      es := [];
    } else {
      var front, last := and_[..|and_| - 1], and_[|and_| - 1];
      AndSnoc(ph, and_, db, node);
      es := AndedsMean(ph, front, db, node, variables);
      if Kept(last) {
        AtomReads(last, ph[last.value]);
        AtomEval(db, node, ph, variables, last);
        es := es + [AtomExpr(last, ph[last.value])];
      } else {
        assert Andeds(ph, and_) == Andeds(ph, front);
      }
    }
  }

  lemma AndSnoc(ph: Placeholders, and_: AndFilter, db: Database, node: Node)
    requires and_ != [] && CoversAnd(ph, and_) && WordsOk(ph, [and_])
    ensures var front, last := and_[..|and_| - 1], and_[|and_| - 1];
            && CoversAnd(ph, front) && WordsOk(ph, [front])
            && (Kept(last) ==> last.value in ph && CmpOk(last) && IsWord(ph[last.value]))
            && (KeptAndHolds(db, node, and_) <==> KeptAndHolds(db, node, front) && (Kept(last) ==> CmpHolds(db, node, last)))
            && (AllDropped(and_) <==> AllDropped(front) && !Kept(last))
  {
    var front, last := and_[..|and_| - 1], and_[|and_| - 1];
    SplitLast(and_);
    assert [and_][0] == and_ && and_ in [and_] && last in and_;
    assert forall c | c in and_ :: c in front || c == last;
  }

  // A printed conjunction.
  lemma GroupAndMeans(ph: Placeholders, and_: AndFilter, db: Database, node: Node, variables: map<string, string>) returns (e: Expr)
    requires CoversAnd(ph, and_) && WordsOk(ph, [and_]) && Inverse(ph, variables) && !AllDropped(and_)
    ensures Andeds(ph, and_) != [] && Reads(Group(" AND ", Andeds(ph, and_)), e)
    ensures Eval(db, node, variables, e) <==> KeptAndHolds(db, node, and_)
  {
    var es := AndedsMean(ph, and_, db, node, variables);
    GroupReads(Andeds(ph, and_), es);
    FoldAndEval(db, node, variables, es[0], es[1..]);
    assert forall x | x in es :: x == es[0] || x in es[1..];
    e := FoldAnd(es[0], es[1..]);
  }

  lemma {:induction false} NothingAnded(ph: Placeholders, and_: AndFilter)
    requires CoversAnd(ph, and_) && AllDropped(and_)
    ensures Andeds(ph, and_) == []
  {
    if and_ != [] {
      assert and_[|and_| - 1] in and_;
      NothingAnded(ph, and_[..|and_| - 1]);
    }
  }

  // Some printed conjunction holds.
  predicate SomeHolds(db: Database, node: Node, or_: OrFilter) {
    exists and_ | and_ in or_ :: !AllDropped(and_) && KeptAndHolds(db, node, and_)
  }

  lemma OrSnoc(or_: OrFilter, db: Database, node: Node)
    requires or_ != []
    ensures var front, last := or_[..|or_| - 1], or_[|or_| - 1];
            && (SomeHolds(db, node, or_) <==> SomeHolds(db, node, front) || (!AllDropped(last) && KeptAndHolds(db, node, last)))
            && ((forall and_ | and_ in or_ :: AllDropped(and_)) <==> (forall and_ | and_ in front :: AllDropped(and_)) && AllDropped(last))
            && last in or_ && forall and_ | and_ in front :: and_ in or_
  {
    SplitLast(or_);
  }

  lemma {:induction false} OredsMean(ph: Placeholders, or_: OrFilter, db: Database, node: Node, variables: map<string, string>)
    returns (es: seq<Expr>)
    requires CoversOr(ph, or_) && WordsOk(ph, or_) && Inverse(ph, variables)
    ensures AllRead(Oreds(ph, or_), es)
    ensures es == [] <==> forall and_ | and_ in or_ :: AllDropped(and_)
    ensures (exists e | e in es :: Eval(db, node, variables, e)) <==> SomeHolds(db, node, or_)
    decreases |or_|
  {
    es := [];
    if or_ != [] {
      var front, last := or_[..|or_| - 1], or_[|or_| - 1];
      OrSnoc(or_, db, node);
      es := OredsMean(ph, front, db, node, variables);
      if AllDropped(last) {
        NothingAnded(ph, last);
        assert Oreds(ph, or_) == Oreds(ph, front);
      } else {
        var e := GroupAndMeans(ph, last, db, node, variables);
        es := es + [e];
      }
    }
  }

  // The printed disjunction of a property.
  lemma GroupOrMeans(ph: Placeholders, or_: OrFilter, db: Database, node: Node, variables: map<string, string>) returns (e: Expr)
    requires CoversOr(ph, or_) && WordsOk(ph, or_) && Inverse(ph, variables)
    requires !forall and_ | and_ in or_ :: AllDropped(and_)
    ensures Oreds(ph, or_) != [] && Reads(Group(" OR ", Oreds(ph, or_)), e)
    ensures Eval(db, node, variables, e) <==> KeptOrHolds(db, node, or_)
  {
    var es := OredsMean(ph, or_, db, node, variables);
    GroupReads(Oreds(ph, or_), es);
    FoldOrEval(db, node, variables, es[0], es[1..]);
    assert forall x | x in es :: x == es[0] || x in es[1..];
    e := FoldOr(es[0], es[1..]);
  }

  lemma {:induction false} NothingOred(ph: Placeholders, or_: OrFilter)
    requires CoversOr(ph, or_) && forall and_ | and_ in or_ :: AllDropped(and_)
    ensures Oreds(ph, or_) == []
  {
    if or_ != [] {
      NothingOred(ph, or_[..|or_| - 1]);
      assert or_[|or_| - 1] in or_;
      NothingAnded(ph, or_[|or_| - 1]);
    }
  }

  predicate NothingKept(or_: OrFilter) {
    forall and_ | and_ in or_ :: AllDropped(and_)
  }

  predicate AllHold(db: Database, node: Node, filters: PropertyFilters) {
    forall f | f in filters :: KeptOrHolds(db, node, f.1)
  }

  predicate NothingKeptAtAll(filters: PropertyFilters) {
    forall f | f in filters :: NothingKept(f.1)
  }

  lemma FiltersSnoc(filters: PropertyFilters, db: Database, node: Node)
    requires filters != []
    ensures var front, last := filters[..|filters| - 1], filters[|filters| - 1];
            && (AllHold(db, node, filters) <==> AllHold(db, node, front) && KeptOrHolds(db, node, last.1))
            && (NothingKeptAtAll(filters) <==> NothingKeptAtAll(front) && NothingKept(last.1))
  {
    var front, last := filters[..|filters| - 1], filters[|filters| - 1];
    assert last in filters && forall f | f in filters :: f in front || f == last;
    assert forall f | f in front :: f in filters;
  }

  // `es` are readings of the printed properties, and say together what these say.
  ghost predicate PropsSay(ph: Placeholders, filters: PropertyFilters, db: Database, node: Node, variables: map<string, string>, es: seq<Expr>)
    requires Covers(ph, filters)
  {
    && AllRead(Props(ph, filters), es)
    && (es == [] <==> NothingKeptAtAll(filters))
    && ((forall e | e in es :: Eval(db, node, variables, e)) <==> AllHold(db, node, filters))
  }

  // One more property, with nothing printed.
  lemma NoPropMeans(ph: Placeholders, filters: PropertyFilters, es: seq<Expr>, db: Database, node: Node, variables: map<string, string>)
    requires filters != [] && Covers(ph, filters) && NothingKept(filters[|filters| - 1].1)
    requires PropsSay(ph, filters[..|filters| - 1], db, node, variables, es)
    ensures PropsSay(ph, filters, db, node, variables, es)
  {
    FiltersSnoc(filters, db, node);
    assert filters[|filters| - 1] in filters;
    NothingOred(ph, filters[|filters| - 1].1);
    assert Props(ph, filters) == Props(ph, filters[..|filters| - 1]);
  }

  // One more property, with something printed.
  lemma NextPropMeans(ph: Placeholders, filters: PropertyFilters, before: seq<Expr>, db: Database, node: Node, variables: map<string, string>)
    returns (es: seq<Expr>)
    requires filters != [] && Covers(ph, filters) && Inverse(ph, variables)
    requires WordsOk(ph, filters[|filters| - 1].1) && !NothingKept(filters[|filters| - 1].1)
    requires PropsSay(ph, filters[..|filters| - 1], db, node, variables, before)
    ensures PropsSay(ph, filters, db, node, variables, es)
  {
    var last := filters[|filters| - 1];
    assert last in filters;
    var e := GroupOrMeans(ph, last.1, db, node, variables);
    es := before + [e];
    FiltersSnoc(filters, db, node);
    assert Props(ph, filters) == Props(ph, filters[..|filters| - 1]) + [Group(" OR ", Oreds(ph, last.1))];
    assert es[|before|] == e && forall x | x in es :: x in before || x == e;
    assert forall x | x in before :: x in es;
  }

  lemma {:induction false} PropsMean(ph: Placeholders, filters: PropertyFilters, db: Database, node: Node, variables: map<string, string>)
    returns (es: seq<Expr>)
    requires Covers(ph, filters) && (forall f | f in filters :: WordsOk(ph, f.1)) && Inverse(ph, variables)
    ensures PropsSay(ph, filters, db, node, variables, es)
    decreases |filters|
  {
    es := [];
    if filters != [] {
      es := PropsMean(ph, filters[..|filters| - 1], db, node, variables);
      assert filters[|filters| - 1] in filters;
      if NothingKept(filters[|filters| - 1].1) {
        NoPropMeans(ph, filters, es, db, node, variables);
      } else {
        es := NextPropMeans(ph, filters, es, db, node, variables);
      }
    }
  }

  // The printed filter, read back with the variables of the query substituted, says of every
  // property that one of its printed conjunctions holds; nothing is printed only when
  // nothing is kept.
  lemma PrintedMeans(ph: Placeholders, filters: PropertyFilters, db: Database, node: Node, variables: map<string, string>)
    requires Covers(ph, filters) && (forall f | f in filters :: WordsOk(ph, f.1)) && Inverse(ph, variables)
    ensures Printed(ph, filters).None? <==> forall f | f in filters :: forall and_ | and_ in f.1 :: AllDropped(and_)
    ensures Printed(ph, filters).Some? ==>
              var e := Parse(Printed(ph, filters).value);
              e.Some? && (Eval(db, node, variables, e.value) <==> forall f | f in filters :: KeptOrHolds(db, node, f.1))
  {
    var es := PropsMean(ph, filters, db, node, variables);
    if es != [] {
      var texts := Props(ph, filters);
      JoinAndReads(texts, es);
      var e := FoldAnd(es[0], es[1..]);
      FoldAndEval(db, node, variables, es[0], es[1..]);
      assert es == [es[0]] + es[1..];
      ReadsOrParses(Join(" AND ", texts), e);
    }
  }

  lemma ReadsOrParses(text: string, e: Expr)
    requires ReadsOr(text, e)
    ensures Parse(text) == Some(e)
  {
    var toks :| Closed(text, toks) && OrLevel(toks, e);
    assert text + "" == text;
    assert Lex("", text + "") == toks + [];
    assert ParseOr(toks + []) == Some((e, []));
  }

  // The placeholders of an allocator are words, so the theorems apply to what it printed.
  lemma AllocatedAreWords(vars: VarAllocator)
    requires vars.Valid() && forall c | c in vars.prefix :: WordChar(c)
    ensures forall v | v in vars.placeholders :: IsWord(vars.placeholders[v])
  {
    forall v | v in vars.placeholders
      ensures IsWord(vars.placeholders[v])
    {
      var i: nat :| i < vars.count && vars.placeholders[v] == Placeholder(vars.prefix, i);
      ZsAreWords(i / 26);
    }
  }

  lemma {:induction false} ZsAreWords(n: nat)
    ensures forall c | c in Zs(n) :: WordChar(c)
  {
    if n > 0 {
      ZsAreWords(n - 1);
    }
  }

  // ---------------------------------------------------------------- against the query

  // A query's own meaning, for nodes that satisfy the dropped atoms in `dropped`.
  predicate Sat(db: Database, node: Node, dropped: Cmp -> bool, c: Cmp) {
    if c.Has? || c.Regex? then dropped(c) else CmpHolds(db, node, c)
  }

  predicate OrMeans(db: Database, node: Node, dropped: Cmp -> bool, or_: OrFilter) {
    or_ == [] || exists and_ | and_ in or_ :: forall c | c in and_ :: Sat(db, node, dropped, c)
  }

  predicate QueryMeans(db: Database, node: Node, dropped: Cmp -> bool, filters: PropertyFilters) {
    forall f | f in filters :: OrMeans(db, node, dropped, f.1)
  }

  predicate NothingDropped(or_: OrFilter) {
    forall and_ | and_ in or_ :: and_ != [] && forall c | c in and_ :: c.Compare? || c.Distance?
  }

  predicate AllOrNoneDropped(or_: OrFilter) {
    (forall and_ | and_ in or_ :: AllDropped(and_)) || (forall and_ | and_ in or_ :: !AllDropped(and_))
  }

  // With nothing dropped the printed filter means exactly the query.
  lemma PrintedIsExact(ph: Placeholders, filters: PropertyFilters, db: Database, node: Node, dropped: Cmp -> bool, variables: map<string, string>)
    requires Covers(ph, filters) && (forall f | f in filters :: WordsOk(ph, f.1)) && Inverse(ph, variables)
    requires forall f | f in filters :: NothingDropped(f.1)
    ensures match Printed(ph, filters)
            case None => QueryMeans(db, node, dropped, filters)
            case Some(text) => Parse(text).Some? && (Eval(db, node, variables, Parse(text).value) <==> QueryMeans(db, node, dropped, filters))
  {
    PrintedMeans(ph, filters, db, node, variables);
    forall f | f in filters
      ensures KeptOrHolds(db, node, f.1) <==> OrMeans(db, node, dropped, f.1)
    {
      if f.1 != [] {
        assert f.1[0] in f.1 && f.1[0][0] in f.1[0];
      }
      forall and_ | and_ in f.1
        ensures !AllDropped(and_) && (KeptAndHolds(db, node, and_) <==> forall c | c in and_ :: Sat(db, node, dropped, c))
      {
        assert and_[0] in and_;
      }
    }
    if Printed(ph, filters).None? {
      forall f | f in filters
        ensures KeptOrHolds(db, node, f.1)
      {
      }
    }
  }

  lemma AllOrNoneIsImplied(or_: OrFilter, db: Database, node: Node, dropped: Cmp -> bool)
    requires AllOrNoneDropped(or_) && OrMeans(db, node, dropped, or_)
    ensures KeptOrHolds(db, node, or_)
  {
    if or_ != [] {
      var and_ :| and_ in or_ && forall c | c in and_ :: Sat(db, node, dropped, c);
      assert KeptAndHolds(db, node, and_);
    }
  }

  // With atoms dropped it is still implied by the query when, in every disjunction, all or
  // none of the conjunctions were dropped.
  lemma PrintedIsImplied(ph: Placeholders, filters: PropertyFilters, db: Database, node: Node, dropped: Cmp -> bool, variables: map<string, string>)
    requires Covers(ph, filters) && (forall f | f in filters :: WordsOk(ph, f.1)) && Inverse(ph, variables)
    requires forall f | f in filters :: AllOrNoneDropped(f.1)
    ensures Printed(ph, filters).Some? ==>
              var e := Parse(Printed(ph, filters).value);
              e.Some? && (QueryMeans(db, node, dropped, filters) ==> Eval(db, node, variables, e.value))
  {
    PrintedMeans(ph, filters, db, node, variables);
    forall f | f in filters && OrMeans(db, node, dropped, f.1)
      ensures KeptOrHolds(db, node, f.1)
    {
      AllOrNoneIsImplied(f.1, db, node, dropped);
    }
  }

  // ---------------------------------------------------------------- when it is implied

  // One kept atom of each conjunction that is printed, and values for its predicate that
  // fail it and every other picked atom of the predicate: a node can fail the picks at once.
  ghost predicate Picks(db: Database, or_: OrFilter, picks: seq<Cmp>, values: seq<set<string>>) {
    && |picks| == |values| == |or_|
    && (forall i | 0 <= i < |or_| && !AllDropped(or_[i]) :: picks[i] in or_[i] && Kept(picks[i]))
    && (forall i, j | 0 <= i < |or_| && 0 <= j < |or_| && !AllDropped(or_[i]) && !AllDropped(or_[j]) ::
          picks[i].pred == picks[j].pred ==> !AtomHolds(db, values[i], picks[j]))
  }

  ghost predicate Refutable(db: Database, or_: OrFilter) {
    exists picks, values :: Picks(db, or_, picks, values)
  }

  ghost predicate Implied(db: Database, or_: OrFilter) {
    forall node: Node, dropped: Cmp -> bool :: OrMeans(db, node, dropped, or_) ==> KeptOrHolds(db, node, or_)
  }

  // A node that fails every printed conjunction fails an atom of each.
  lemma {:induction false} FailingPicks(db: Database, or_: OrFilter, node: Node) returns (picks: seq<Cmp>)
    requires forall and_ | and_ in or_ && !AllDropped(and_) :: !KeptAndHolds(db, node, and_)
    ensures |picks| == |or_|
    ensures forall i | 0 <= i < |or_| && !AllDropped(or_[i]) ::
              picks[i] in or_[i] && Kept(picks[i]) && !CmpHolds(db, node, picks[i])
    decreases |or_|
  {
    picks := [];
    if or_ != [] {
      var front, last := or_[..|or_| - 1], or_[|or_| - 1];
      picks := FailingPicks(db, front, node);
      var pick := Has("", false);
      if !AllDropped(last) {
        assert last in or_;
        pick :| pick in last && Kept(pick) && !CmpHolds(db, node, pick);
      }
      picks := picks + [pick];
    }
  }

  lemma NotRefutableHolds(db: Database, or_: OrFilter, node: Node)
    requires !Refutable(db, or_)
    ensures exists and_ | and_ in or_ :: !AllDropped(and_) && KeptAndHolds(db, node, and_)
  {
    if !exists and_ | and_ in or_ :: !AllDropped(and_) && KeptAndHolds(db, node, and_) {
      var picks := FailingPicks(db, or_, node);
      var values: seq<set<string>> := seq(|or_|, i requires 0 <= i < |or_| => node(picks[i].pred));
      assert forall i | 0 <= i < |or_| :: values[i] == node(picks[i].pred);
      assert Picks(db, or_, picks, values) && Refutable(db, or_);
      assert false;
    }
  }

  // The node with the picked values fails every pick.
  ghost function Failing(or_: OrFilter, picks: seq<Cmp>, values: seq<set<string>>): Node
    requires |picks| == |values| == |or_|
  {
    (p: string) =>
      if exists i :: 0 <= i < |or_| && !AllDropped(or_[i]) && picks[i].pred == p then
        var i :| 0 <= i < |or_| && !AllDropped(or_[i]) && picks[i].pred == p;
        values[i]
      else {}
  }

  lemma PicksFail(db: Database, or_: OrFilter, picks: seq<Cmp>, values: seq<set<string>>)
    requires Picks(db, or_, picks, values)
    ensures forall and_ | and_ in or_ && !AllDropped(and_) :: !KeptAndHolds(db, Failing(or_, picks, values), and_)
  {
    var node := Failing(or_, picks, values);
    forall and_ | and_ in or_ && !AllDropped(and_)
      ensures !KeptAndHolds(db, node, and_)
    {
      var i :| 0 <= i < |or_| && or_[i] == and_;
      var p := picks[i].pred;
      var j :| 0 <= j < |or_| && !AllDropped(or_[j]) && picks[j].pred == p && node(p) == values[j];
      assert !CmpHolds(db, node, picks[i]);
    }
  }

  // The exact condition for every disjunction: all or none of the conjunctions are dropped,
  // or no node can fail an atom of each printed one.
  lemma ImpliedIff(db: Database, or_: OrFilter)
    ensures Implied(db, or_) <==> AllOrNoneDropped(or_) || !Refutable(db, or_)
  {
    if AllOrNoneDropped(or_) {
      forall node: Node, dropped: Cmp -> bool | OrMeans(db, node, dropped, or_)
        ensures KeptOrHolds(db, node, or_)
      {
        AllOrNoneIsImplied(or_, db, node, dropped);
      }
    } else if !Refutable(db, or_) {
      forall node: Node
        ensures KeptOrHolds(db, node, or_)
      {
        NotRefutableHolds(db, or_, node);
      }
    } else {
      var picks, values :| Picks(db, or_, picks, values);
      PicksFail(db, or_, picks, values);
      var node := Failing(or_, picks, values);
      var dropped: Cmp -> bool := c => true;
      var gone :| gone in or_ && AllDropped(gone);
      assert forall c | c in gone :: Sat(db, node, dropped, c);
      assert OrMeans(db, node, dropped, or_) && !KeptOrHolds(db, node, or_);
    }
  }

  // The kept atoms of a predicate are all plain, or all negated and such that some value
  // fails each.
  predicate OneSided(db: Database, or_: OrFilter, fails: Cmp -> set<string>) {
    forall a, b | a in or_ && b in or_ :: forall c, d | c in a && d in b && Kept(c) && Kept(d) ::
      && (c.pred == d.pred ==> c.negated == d.negated)
      && (c.negated ==> !AtomHolds(db, fails(c), c))
  }

  // More values satisfy more plain atoms and fewer negated ones.
  lemma MoreValues(db: Database, c: Cmp, fewer: set<string>, more: set<string>)
    requires Kept(c) && fewer <= more && c.negated && !AtomHolds(db, fewer, c)
    ensures !AtomHolds(db, more, c)
  {
  }

  // The values that fail the negated atoms of one predicate, all together.
  function Together(picks: seq<Cmp>, fails: Cmp -> set<string>, p: string): set<string> {
    if picks == [] then {} else
    var last := picks[|picks| - 1];
    Together(picks[..|picks| - 1], fails, p)
    + (if Kept(last) && last.pred == p && last.negated then fails(last) else {})
  }

  lemma {:induction false} TogetherHas(picks: seq<Cmp>, fails: Cmp -> set<string>, p: string)
    ensures forall c | c in picks && Kept(c) && c.pred == p && c.negated :: fails(c) <= Together(picks, fails, p)
    ensures (forall c | c in picks && Kept(c) && c.pred == p :: !c.negated) ==> Together(picks, fails, p) == {}
  {
    if picks != [] {
      TogetherHas(picks[..|picks| - 1], fails, p);
      SplitLast(picks);
    }
  }

  // So unless some predicate is asked for both plainly and negated, with some but not all
  // conjunctions dropped some nodes match the query but not the printed filter.
  lemma ImpliedIffAllOrNone(db: Database, or_: OrFilter, fails: Cmp -> set<string>)
    requires OneSided(db, or_, fails)
    ensures Implied(db, or_) <==> AllOrNoneDropped(or_)
  {
    var picks := AnyPicks(or_);
    var values := seq(|or_|, i requires 0 <= i < |or_| =>
      if Kept(picks[i]) then Together(picks, fails, picks[i].pred) else {});
    forall i, j | 0 <= i < |or_| && 0 <= j < |or_| && !AllDropped(or_[i]) && !AllDropped(or_[j]) && picks[i].pred == picks[j].pred
      ensures !AtomHolds(db, values[i], picks[j])
    {
      OneSidedPicks(db, or_, picks, fails, j);
    }
    assert Picks(db, or_, picks, values);
    ImpliedIff(db, or_);
  }

  lemma OneSidedPicks(db: Database, or_: OrFilter, picks: seq<Cmp>, fails: Cmp -> set<string>, j: nat)
    requires OneSided(db, or_, fails) && |picks| == |or_| && j < |or_| && !AllDropped(or_[j])
    requires forall i | 0 <= i < |or_| :: if AllDropped(or_[i]) then !Kept(picks[i]) else picks[i] in or_[i] && Kept(picks[i])
    ensures Kept(picks[j]) && !AtomHolds(db, Together(picks, fails, picks[j].pred), picks[j])
  {
    var c := picks[j];
    TogetherHas(picks, fails, c.pred);
    forall d | d in picks && Kept(d) && d.pred == c.pred
      ensures d.negated == c.negated
    {
      var i :| 0 <= i < |picks| && picks[i] == d;
      assert or_[i] in or_ && or_[j] in or_;
    }
    assert or_[j] in or_;
    if c.negated {
      MoreValues(db, c, fails(c), Together(picks, fails, c.pred));
    }
  }

  lemma {:induction false} AnyPicks(or_: OrFilter) returns (picks: seq<Cmp>)
    ensures |picks| == |or_|
    ensures forall i | 0 <= i < |or_| :: if AllDropped(or_[i]) then !Kept(picks[i]) else picks[i] in or_[i] && Kept(picks[i])
    decreases |or_|
  {
    picks := [];
    if or_ != [] {
      picks := AnyPicks(or_[..|or_| - 1]);
      var pick := Has("", false);
      if !AllDropped(or_[|or_| - 1]) {
        pick :| pick in or_[|or_| - 1] && !(pick.Has? || pick.Regex?);
      }
      picks := picks + [pick];
    }
  }
}
