/** The statement builder: collecting the values of placeholders, by position or by name, and binding them
    through a chain of clauses. */
module SqlParams {
  import opened Options
  import opened SqlTexts
  import StringUtils

  // ---------------------------------------------------------------- binding one clause

  datatype Value = Value(typ: nat, data: int)

  /** The arguments of a clause: all with a bind name, or none. */
  datatype Args = Positional(values: seq<Value>) | Named(binds: seq<(string, Value)>)

  function Count(a: Args): nat {
    if a.Positional? then |a.values| else |a.binds|
  }

  /** What the static assertions demand. */
  predicate Fits(ps: seq<Param>, a: Args) {
    && Count(a) == |ps|
    && match a
       case Positional(vs) => forall i :: 0 <= i < |ps| ==> vs[i].typ == ps[i].typ
       case Named(bs) => bs != [] && forall p :: p in ps ==> IsBound(bs, p.name)
  }

  predicate IsBound(bs: seq<(string, Value)>, name: string) {
    exists i :: 0 <= i < |bs| && bs[i].0 == name
  }

  /** The value that goes with the k-th parameter: the k-th one, or the first of the parameter's name. */
  ghost predicate BelongsTo(v: Value, ps: seq<Param>, k: nat, a: Args)
    requires k < |ps| == Count(a)
  {
    match a
    case Positional(vs) => v == vs[k]
    case Named(bs) => exists i :: 0 <= i < |bs| && bs[i] == (ps[k].name, v)
                                  && forall j :: 0 <= j < i ==> bs[j].0 != ps[k].name
  }

  /** atParamBindName: the first bind of the name. */
  method AtParamBindName(p: Param, bs: seq<(string, Value)>) returns (v: Value)
    requires IsBound(bs, p.name)
    ensures exists i :: 0 <= i < |bs| && bs[i] == (p.name, v) && forall j :: 0 <= j < i ==> bs[j].0 != p.name
  {
    var i := 0;
    while bs[i].0 != p.name
      invariant 0 <= i < |bs| && (forall j :: 0 <= j < i ==> bs[j].0 != p.name)
      decreases |bs| - i
    {
      i := i + 1;
    }
    v := bs[i].1;
    assert bs[i] == (p.name, v);
  }

  /** The values are those of the parameters, one for one. */
  ghost predicate Answers(vs: seq<Value>, ps: seq<Param>, a: Args) {
    |vs| == |ps| == Count(a) && forall k :: 0 <= k < |ps| ==> BelongsTo(vs[k], ps, k, a)
  }

  method Pick(ps: seq<Param>, a: Args) returns (vs: seq<Value>)
    requires Fits(ps, a)
    ensures Answers(vs, ps, a)
  {
    if a.Positional? {
      return a.values;
    }
    vs := [];
    for k := 0 to |ps|
      invariant |vs| == k && forall j :: 0 <= j < k ==> BelongsTo(vs[j], ps, j, a)
    {
      assert ps[k] in ps;
      var v := AtParamBindName(ps[k], a.binds);
      vs := vs + [v];
    }
  }

  // ---------------------------------------------------------------- chains of clauses

  datatype Bound = Fixed(digits: string) | FromParam(param: Param)

  datatype Clause =
    | Where(e: Expr)
    | GroupBy(e: Expr)
    | GroupByColumns(columns: seq<string>)
    | Having(e: Expr)
    | OrderBy(orders: seq<(string, string)>)
    | Limit(offset: Bound, maxCnt: Option<Bound>)

  function BoundParams(b: Bound): seq<Param> {
    if b.FromParam? then [b.param] else []
  }

  function ClauseParams(c: Clause): seq<Param> {
    match c
    case Where(e) => ExprParams(e)
    case GroupBy(e) => ExprParams(e)
    case Having(e) => ExprParams(e)
    case Limit(b, None) => BoundParams(b)
    case Limit(b, Some(m)) => BoundParams(b) + BoundParams(m)
    case _ => []
  }

  /** The builder class that has the clause's method: 0 for where, 4 for limit. Each class inherits from
      the next one. */
  function Level(c: Clause): nat {
    match c
    case Where(_) => 0
    case GroupBy(_) => 1
    case GroupByColumns(_) => 1
    case Having(_) => 2
    case OrderBy(_) => 3
    case Limit(_, _) => 4
  }

  /** The chains that the builders accept: clauses in their order, each at most once. */
  predicate Accepted(cs: seq<Clause>) {
    && (forall j :: 0 < j < |cs| ==> Level(cs[j - 1]) < Level(cs[j]))
    && forall j :: 0 <= j < |cs| ==> (cs[j].GroupByColumns? ==> cs[j].columns != [])
                                     && (cs[j].OrderBy? ==> cs[j].orders != [])
  }

  /** The first clause behind the last one left out: its method is that of a base class, whose own tuple is
      empty. 0 if no clause is left out between others. */
  function LastSkip(cs: seq<Clause>): (n: nat)
    ensures n <= |cs|
  {
    if |cs| <= 1 then 0
    else if Level(cs[|cs| - 1]) != Level(cs[|cs| - 2]) + 1 then |cs| - 1
    else LastSkip(cs[..|cs| - 1])
  }

  /** Arguments are taken by the clauses with parameters; limit takes them by position, of any type. */
  predicate ClauseFits(c: Clause, a: Args) {
    match c
    case GroupByColumns(_) => a == Positional([])
    case OrderBy(_) => a == Positional([])
    case Limit(_, _) => a.Positional? && |a.values| == |ClauseParams(c)|
    case _ => Fits(ClauseParams(c), a)
  }

  predicate ChainFits(cs: seq<Clause>, as_: seq<Args>) {
    |cs| == |as_| && forall j :: 0 <= j < |cs| ==> ClauseFits(cs[j], as_[j])
  }

  function ChainParams(cs: seq<Clause>): seq<Param> {
    if cs == [] then [] else ChainParams(cs[..|cs| - 1]) + ClauseParams(cs[|cs| - 1])
  }

  /** The values of a chain: those of its clauses, one clause after another. */
  ghost predicate ChainAnswers(vs: seq<Value>, cs: seq<Clause>, as_: seq<Args>)
    requires |cs| == |as_|
    decreases |cs|
  {
    if cs == [] then vs == []
    else
      var last := |cs| - 1;
      var n := |vs| - |ClauseParams(cs[last])|;
      n >= 0 && Answers(vs[n..], ClauseParams(cs[last]), as_[last]) && ChainAnswers(vs[..n], cs[..last], as_[..last])
  }

  /** The k-th parameter of the j-th clause is the one of the i-th placeholder, counted over the whole
      chain, and the i-th value is the one that was given for it. */
  lemma {:induction false} Aligned(vs: seq<Value>, cs: seq<Clause>, as_: seq<Args>, j: nat, k: nat)
    requires j < |cs| == |as_| && ChainAnswers(vs, cs, as_) && k < |ClauseParams(cs[j])|
    ensures |vs| == |ChainParams(cs)|
    ensures var i := |ChainParams(cs[..j])| + k;
            && i < |vs| && ChainParams(cs)[i] == ClauseParams(cs[j])[k]
            && Count(as_[j]) == |ClauseParams(cs[j])|
            && BelongsTo(vs[i], ClauseParams(cs[j]), k, as_[j])
    decreases |cs|
  {
    hide ClauseParams, BelongsTo, Count, Answers;
    var last := |cs| - 1;
    var n := |vs| - |ClauseParams(cs[last])|;
    AsManyValues(vs, cs, as_);
    AsManyValues(vs[..n], cs[..last], as_[..last]);
    if j < last {
      Aligned(vs[..n], cs[..last], as_[..last], j, k);
      assert cs[..last][..j] == cs[..j];
    } else {
      AnswersAt(vs[n..], ClauseParams(cs[last]), as_[last], k);
    }
  }

  lemma AnswersAt(vs: seq<Value>, ps: seq<Param>, a: Args, k: nat)
    requires Answers(vs, ps, a) && k < |ps|
    ensures |vs| == |ps| == Count(a) && BelongsTo(vs[k], ps, k, a)
  {
  }

  lemma {:induction false} AsManyValues(vs: seq<Value>, cs: seq<Clause>, as_: seq<Args>)
    requires |cs| == |as_| && ChainAnswers(vs, cs, as_)
    ensures |vs| == |ChainParams(cs)|
    decreases |cs|
  {
    hide ClauseParams, Count;
    if cs != [] {
      var last := |cs| - 1;
      AsManyValues(vs[..|vs| - |ClauseParams(cs[last])|], cs[..last], as_[..last]);
    }
  }

  /** One clause more. */
  lemma AnswersExtend(tp: seq<Value>, vs: seq<Value>, cs: seq<Clause>, as_: seq<Args>, c: Clause, a: Args)
    requires |cs| == |as_| && ChainAnswers(tp, cs, as_) && Answers(vs, ClauseParams(c), a)
    ensures ChainAnswers(tp + vs, cs + [c], as_ + [a])
    ensures ChainParams(cs + [c]) == ChainParams(cs) + ClauseParams(c)
  {
    hide ClauseParams, Answers;
    AnswersCount(vs, ClauseParams(c), a);
    assert (cs + [c])[..|cs|] == cs && (as_ + [a])[..|cs|] == as_;
    assert (tp + vs)[|tp|..] == vs && (tp + vs)[..|tp|] == tp;
  }

  /** ... to those since the last gap, or behind a new one. */
  lemma AnswersGoOn(own: seq<Value>, more: seq<Value>, cs: seq<Clause>, as_: seq<Args>, j: nat, n: nat, m: nat)
    requires j < |cs| == |as_| && n <= j && |own| <= |more| && more[..|own|] == own
    requires (m == j && own == []) || (m == n && ChainAnswers(own, cs[..j][n..], as_[..j][n..]))
    requires Answers(more[|own|..], ClauseParams(cs[j]), as_[j])
    ensures ChainAnswers(more, cs[..j + 1][m..], as_[..j + 1][m..])
  {
    hide ClauseParams, Answers, ChainAnswers;
    NothingAnswers();
    Slices(cs, j, n);
    Slices(as_, j, n);
    Slices(cs, j, m);
    Slices(as_, j, m);
    Slices(more, |own|, 0);
    AnswersExtend(own, more[|own|..], cs[m..j], as_[m..j], cs[j], as_[j]);
  }

  lemma Slices<T>(s: seq<T>, j: nat, n: nat)
    requires n <= j <= |s|
    ensures s[..j][n..] == s[n..j] && s[j..j] == [] && s[..j] + s[j..] == s
    ensures j < |s| ==> s[n..j] + [s[j]] == s[..j + 1][n..]
  {
  }

  lemma AnswersCount(vs: seq<Value>, ps: seq<Param>, a: Args)
    requires Answers(vs, ps, a)
    ensures |vs| == |ps|
  {
  }

  lemma NothingAnswers()
    ensures Answers([], [], Positional([])) && ChainAnswers([], [], []) && ChainParams([]) == Marks([]) == []
  {
  }

  // ---------------------------------------------------------------- the text of a statement

  predicate FullClause(c: Clause) {
    match c
    case Where(e) => FullExpr(e)
    case GroupBy(e) => FullExpr(e)
    case GroupByColumns(columns) => columns != []
    case Having(e) => FullExpr(e)
    case OrderBy(orders) => orders != []
    case Limit(_, _) => true
  }

  predicate FullChain(cs: seq<Clause>) {
    forall j :: 0 <= j < |cs| ==> FullClause(cs[j])
  }

  function OrderTexts(orders: seq<(string, string)>): (r: seq<string>)
    ensures |r| == |orders|
  {
    seq(|orders|, i requires 0 <= i < |orders| => orders[i].0 + " " + orders[i].1)
  }

  function BoundText(b: Bound): seq<Token> {
    match b
    case Fixed(digits) => Plain(digits)
    case FromParam(p) => [Mark(p)]
  }

  function ClauseText(c: Clause): seq<Token> {
    match c
    case Where(e) => Plain("WHERE ") + ExprText(e) + Plain(" ")
    case GroupBy(e) => Plain("GROUP BY ") + ExprText(e) + Plain(" ")
    case GroupByColumns(columns) => Plain("GROUP BY ") + Plain(StringUtils.Join(columns, ",")) + Plain(" ")
    case Having(e) => Plain("HAVING ") + ExprText(e) + Plain(" ")
    case OrderBy(orders) => Plain("ORDER BY ") + Plain(StringUtils.Join(OrderTexts(orders), ",")) + Plain(" ")
    case Limit(offset, None) => Plain("LIMIT ") + BoundText(offset)
    case Limit(offset, Some(m)) => Plain("LIMIT ") + BoundText(offset) + Plain(",") + BoundText(m)
  }

  function SelectText(columns: seq<string>, table: string): seq<Token> {
    Plain("SELECT ") + Plain(StringUtils.Join(columns, ",")) + Plain(" ") + (Plain("FROM ") + Plain(table) + Plain(" "))
  }

  function ChainText(cs: seq<Clause>): seq<Token> {
    if cs == [] then [] else ChainText(cs[..|cs| - 1]) + ClauseText(cs[|cs| - 1])
  }

  lemma ChainTextNext(cs: seq<Clause>, j: nat)
    requires j < |cs|
    ensures ChainText(cs[..j + 1]) == ChainText(cs[..j]) + ClauseText(cs[j]) && ChainText(cs[..0]) == []
  {
    assert cs[..j + 1][..j] == cs[..j];
  }

  predicate ProperBound(b: Bound) {
    b.Fixed? ==> IsWord(b.digits)
  }

  predicate ProperClause(c: Clause) {
    match c
    case Where(e) => ProperExpr(e)
    case GroupBy(e) => ProperExpr(e)
    case GroupByColumns(columns) => columns != [] && forall i :: 0 <= i < |columns| ==> IsWord(columns[i])
    case Having(e) => ProperExpr(e)
    case OrderBy(orders) => orders != [] && forall i :: 0 <= i < |orders| ==> IsWord(orders[i].0) && IsWord(orders[i].1)
    case Limit(offset, maxCnt) => ProperBound(offset) && (maxCnt.Some? ==> ProperBound(maxCnt.value))
  }

  function BoundLexemes(b: Bound): seq<Lexeme> {
    match b
    case Fixed(digits) => [Word(digits)]
    case FromParam(p) => [Hole(p)]
  }

  /** Texts with a comma between each two. */
  function Listed(texts: seq<seq<Lexeme>>): seq<Lexeme> {
    if texts == [] then []
    else if |texts| == 1 then texts[0]
    else texts[0] + [Comma] + Listed(texts[1..])
  }

  function ClauseLexemes(c: Clause): seq<Lexeme> {
    match c
    case Where(e) => [Word("WHERE")] + ExprLexemes(e)
    case GroupBy(e) => [Word("GROUP"), Word("BY")] + ExprLexemes(e)
    case GroupByColumns(columns) =>
      [Word("GROUP"), Word("BY")] + Listed(seq(|columns|, i requires 0 <= i < |columns| => [Word(columns[i])]))
    case Having(e) => [Word("HAVING")] + ExprLexemes(e)
    case OrderBy(orders) =>
      [Word("ORDER"), Word("BY")]
      + Listed(seq(|orders|, i requires 0 <= i < |orders| => [Word(orders[i].0), Word(orders[i].1)]))
    case Limit(offset, None) => [Word("LIMIT")] + BoundLexemes(offset)
    case Limit(offset, Some(m)) => [Word("LIMIT")] + BoundLexemes(offset) + [Comma] + BoundLexemes(m)
  }

  lemma BoundRead(b: Bound, x: Reader)
    requires ProperBound(b) && x.mode.Between?
    ensures HasRead(x, BoundText(b), BoundLexemes(b))
  {
    hide HasRead;
    match b
    case Fixed(digits) => WordRead(x, digits);
    case FromParam(p) => HoleRead(x, p);
  }

  lemma WordAndBlank(x: Reader, s: string)
    requires x.mode.Between? && IsWord(s)
    ensures Read(x, Plain(s + " ")) == Reader(x.done + [Word(s)], Between)
  {
    hide Read, HasRead, Plain;
    WordRead(x, s);
    ReadSeparator(x, Plain(s), [Word(s)], ' ');
    PlainJoin(s, " ");
    assert x.done + [Word(s)] + [] == x.done + [Word(s)];
  }

  lemma TwoWords(x: Reader, s: string, r: string)
    requires x.mode.Between? && IsWord(s) && IsWord(r)
    ensures HasRead(x, Plain(s + " " + r), [Word(s), Word(r)])
  {
    hide Read, HasRead, Plain;
    WordAndBlank(x, s);
    WordRead(Read(x, Plain(s + " ")), r);
    HasReadJoin(x, Plain(s + " "), Plain(r), [Word(s)], [Word(r)]);
    PlainJoin(s + " ", r);
    assert [Word(s)] + [Word(r)] == [Word(s), Word(r)];
  }

  lemma TwoWordsAndBlank(x: Reader, s: string, r: string)
    requires x.mode.Between? && IsWord(s) && IsWord(r)
    ensures Read(x, Plain(s + " " + r + " ")) == Reader(x.done + [Word(s), Word(r)], Between)
  {
    hide Read, HasRead, Plain;
    TwoWords(x, s, r);
    ReadSeparator(x, Plain(s + " " + r), [Word(s), Word(r)], ' ');
    PlainJoin(s + " " + r, " ");
    assert x.done + [Word(s), Word(r)] + [] == x.done + [Word(s), Word(r)];
  }

  /** Each text is read as what it should be, wherever the reader comes from. */
  ghost predicate EachRead(texts: seq<string>, reads_: seq<seq<Lexeme>>) {
    && |texts| == |reads_|
    && forall i, x: Reader :: 0 <= i < |texts| && x.mode.Between? ==> HasRead(x, Plain(texts[i]), reads_[i])
  }

  lemma {:induction false} ListRead(texts: seq<string>, reads_: seq<seq<Lexeme>>, x: Reader)
    requires texts != [] && EachRead(texts, reads_) && x.mode.Between?
    ensures HasRead(x, Plain(StringUtils.Join(texts, ",")), Listed(reads_))
  {
    hide HasRead, Read, Plain;
    if |texts| > 1 {
      var (first, rest) := (texts[0], StringUtils.Join(texts[1..], ","));
      ReadSeparator(x, Plain(first), reads_[0], ',');
      assert x.done + reads_[0] + [Comma] == x.done + (reads_[0] + [Comma]);
      var y := Read(x, Plain(first) + Plain([',']));
      ListRead(texts[1..], reads_[1..], y);
      HasReadJoin(x, Plain(first) + Plain([',']), Plain(rest), reads_[0] + [Comma], Listed(reads_[1..]));
      PlainJoin(first, ",");
      PlainJoin(first + ",", rest);
    }
  }

  /** A keyword that has been read, and what follows it. */
  lemma AfterKeyword(x: Reader, keyword: string, head: seq<Lexeme>, text: seq<Token>, more: seq<Lexeme>)
    requires Read(x, Plain(keyword)) == Reader(x.done + head, Between)
    requires HasRead(Reader(x.done + head, Between), text, more)
    ensures HasRead(x, Plain(keyword) + text, head + more)
    ensures Read(x, Plain(keyword) + text + Plain(" ")) == Reader(x.done + (head + more), Between)
  {
    hide HasRead, Read, Plain;
    HasReadJoin(x, Plain(keyword), text, head, more);
    ReadSeparator(x, Plain(keyword) + text, head + more, ' ');
    assert x.done + (head + more) + [] == x.done + (head + more);
  }

  lemma LimitRead(x: Reader, offset: Bound, maxCnt: Option<Bound>)
    requires ProperClause(Limit(offset, maxCnt)) && x.mode.Between?
    ensures HasRead(x, ClauseText(Limit(offset, maxCnt)), ClauseLexemes(Limit(offset, maxCnt)))
  {
    hide HasRead, Read, Plain, BoundText, BoundLexemes;
    var limit := Plain("LIMIT ");
    WordAndBlank(x, "LIMIT");
    assert "LIMIT" + " " == "LIMIT ";
    var y := Reader(x.done + [Word("LIMIT")], Between);
    BoundRead(offset, y);
    AfterKeyword(x, "LIMIT ", [Word("LIMIT")], BoundText(offset), BoundLexemes(offset));
    if maxCnt.Some? {
      var (text, read) := (limit + BoundText(offset), [Word("LIMIT")] + BoundLexemes(offset));
      ReadSeparator(x, text, read, ',');
      assert x.done + read + [Comma] == x.done + (read + [Comma]);
      BoundRead(maxCnt.value, Read(x, text + Plain([','])));
      HasReadJoin(x, text + Plain([',']), BoundText(maxCnt.value), read + [Comma], BoundLexemes(maxCnt.value));
    }
  }

  /** The text of a clause reads as the clause: its keywords, then its expression or its list. */
  lemma ClauseRead(c: Clause, x: Reader)
    requires ProperClause(c) && x.mode.Between?
    ensures HasRead(x, ClauseText(c), ClauseLexemes(c))
    ensures !c.Limit? ==> Read(x, ClauseText(c)).mode.Between?
  {
    hide Read, Plain, ExprText, ExprLexemes, StringUtils.Join, Listed, BoundText, BoundLexemes, Lex;
    match c
    case Where(e) =>
      WordAndBlank(x, "WHERE");
      assert "WHERE" + " " == "WHERE ";
      ExprRead(e, Reader(x.done + [Word("WHERE")], Between));
      AfterKeyword(x, "WHERE ", [Word("WHERE")], ExprText(e), ExprLexemes(e));
    case Having(e) =>
      WordAndBlank(x, "HAVING");
      assert "HAVING" + " " == "HAVING ";
      ExprRead(e, Reader(x.done + [Word("HAVING")], Between));
      AfterKeyword(x, "HAVING ", [Word("HAVING")], ExprText(e), ExprLexemes(e));
    case GroupBy(e) =>
      TwoWordsAndBlank(x, "GROUP", "BY");
      assert "GROUP" + " " + "BY" + " " == "GROUP BY ";
      var y := Reader(x.done + [Word("GROUP"), Word("BY")], Between);
      ExprRead(e, y);
      AfterKeyword(x, "GROUP BY ", [Word("GROUP"), Word("BY")], ExprText(e), ExprLexemes(e));
    case GroupByColumns(columns) =>
      TwoWordsAndBlank(x, "GROUP", "BY");
      assert "GROUP" + " " + "BY" + " " == "GROUP BY ";
      var y := Reader(x.done + [Word("GROUP"), Word("BY")], Between);
      var names := seq(|columns|, i requires 0 <= i < |columns| => [Word(columns[i])]);
      ColumnsRead(columns, names);
      ListRead(columns, names, y);
      AfterKeyword(x, "GROUP BY ", [Word("GROUP"), Word("BY")], Plain(StringUtils.Join(columns, ",")), Listed(names));
    case OrderBy(orders) =>
      TwoWordsAndBlank(x, "ORDER", "BY");
      assert "ORDER" + " " + "BY" + " " == "ORDER BY ";
      var y := Reader(x.done + [Word("ORDER"), Word("BY")], Between);
      var pairs := seq(|orders|, i requires 0 <= i < |orders| => [Word(orders[i].0), Word(orders[i].1)]);
      OrdersRead(orders, pairs);
      ListRead(OrderTexts(orders), pairs, y);
      AfterKeyword(x, "ORDER BY ", [Word("ORDER"), Word("BY")], Plain(StringUtils.Join(OrderTexts(orders), ",")),
                   Listed(pairs));
    case Limit(offset, maxCnt) =>
      LimitRead(x, offset, maxCnt);
  }

  lemma ColumnsRead(columns: seq<string>, names: seq<seq<Lexeme>>)
    requires |names| == |columns|
    requires forall i :: 0 <= i < |columns| ==> IsWord(columns[i]) && names[i] == [Word(columns[i])]
    ensures EachRead(columns, names)
  {
    hide HasRead;
    forall i, x: Reader | 0 <= i < |columns| && x.mode.Between? ensures HasRead(x, Plain(columns[i]), names[i]) {
      WordRead(x, columns[i]);
    }
  }

  lemma OrdersRead(orders: seq<(string, string)>, pairs: seq<seq<Lexeme>>)
    requires |pairs| == |orders|
    requires forall i :: 0 <= i < |orders| ==> IsWord(orders[i].0) && IsWord(orders[i].1)
    requires forall i :: 0 <= i < |orders| ==> pairs[i] == [Word(orders[i].0), Word(orders[i].1)]
    ensures EachRead(OrderTexts(orders), pairs)
  {
    hide HasRead;
    forall i, x: Reader | 0 <= i < |orders| && x.mode.Between?
      ensures HasRead(x, Plain(OrderTexts(orders)[i]), pairs[i])
    {
      TwoWords(x, orders[i].0, orders[i].1);
    }
  }

  function ChainLexemes(cs: seq<Clause>): seq<Lexeme> {
    if cs == [] then [] else ChainLexemes(cs[..|cs| - 1]) + ClauseLexemes(cs[|cs| - 1])
  }

  lemma {:induction false} ChainRead(cs: seq<Clause>, x: Reader)
    requires (forall j :: 0 <= j < |cs| ==> ProperClause(cs[j])) && x.mode.Between?
    requires forall j :: 0 <= j < |cs| - 1 ==> !cs[j].Limit?
    ensures HasRead(x, ChainText(cs), ChainLexemes(cs))
    ensures (forall j :: 0 <= j < |cs| ==> !cs[j].Limit?) ==> Read(x, ChainText(cs)).mode.Between?
  {
    hide Read, ClauseText, ClauseLexemes, ProperClause;
    if cs == [] {
      ReadNothing(x);
    } else {
      var front, last := cs[..|cs| - 1], cs[|cs| - 1];
      ChainRead(front, x);
      var y := Read(x, ChainText(front));
      ClauseRead(last, y);
      HasReadJoin(x, ChainText(front), ClauseText(last), ChainLexemes(front), ClauseLexemes(last));
      ReadJoin(x, ChainText(front), ClauseText(last));
    }
  }

  lemma ReadNothing(x: Reader)
    ensures Read(x, []) == x && (x.mode.Between? ==> HasRead(x, [], []))
  {
  }

  /** What a list of columns or aggregates reads as. */
  function ColumnLexemes(columns: seq<string>): (r: seq<seq<Lexeme>>)
    ensures |r| == |columns|
  {
    seq(|columns|, i requires 0 <= i < |columns| => Lex(Plain(columns[i])))
  }

  function SelectLexemes(columns: seq<string>, table: string): seq<Lexeme> {
    [Word("SELECT")] + Listed(ColumnLexemes(columns)) + [Word("FROM"), Word(table)]
  }

  /** The text of a statement reads as the statement: what is selected, from where, and clause after clause. */
  lemma StatementReads(columns: seq<string>, table: string, cs: seq<Clause>)
    requires columns != [] && (forall i :: 0 <= i < |columns| ==> Unquoted(columns[i])) && IsWord(table)
    requires Accepted(cs) && forall j :: 0 <= j < |cs| ==> ProperClause(cs[j])
    ensures Lex(SelectText(columns, table) + ChainText(cs)) == SelectLexemes(columns, table) + ChainLexemes(cs)
  {
    hide Read, HasRead, Lex, Plain, SelectText, SelectLexemes, ChainText, ChainLexemes, ProperClause, Accepted, IsWord;
    var x := Reader([], Between);
    var start := SelectLexemes(columns, table);
    SelectRead(columns, table);
    LimitIsLast(cs);
    ChainRead(cs, Reader(start, Between));
    assert [] + start == start;
    HasReadJoin(x, SelectText(columns, table), ChainText(cs), start, ChainLexemes(cs));
    LexIs(SelectText(columns, table) + ChainText(cs), start + ChainLexemes(cs));
  }

  lemma LimitIsLast(cs: seq<Clause>)
    requires Accepted(cs)
    ensures forall j :: 0 <= j < |cs| - 1 ==> !cs[j].Limit?
  {
    forall j | 0 <= j < |cs| - 1 ensures !cs[j].Limit? {
      assert Level(cs[j]) < Level(cs[j + 1]);
    }
  }

  lemma LexIs(text: seq<Token>, read: seq<Lexeme>)
    requires HasRead(Reader([], Between), text, read)
    ensures Lex(text) == read
  {
    assert [] + read == read;
  }

  lemma SelectRead(columns: seq<string>, table: string)
    requires columns != [] && (forall i :: 0 <= i < |columns| ==> Unquoted(columns[i])) && IsWord(table)
    ensures Read(Reader([], Between), SelectText(columns, table)) == Reader(SelectLexemes(columns, table), Between)
  {
    hide Read, Plain, HasRead, StringUtils.Join, Listed, ColumnLexemes, IsWord, Unquoted;
    var x := Reader([], Between);
    Keywords();
    WordAndBlank(x, "SELECT");
    assert "SELECT" + " " == "SELECT " && "FROM" + " " == "FROM ";
    assert [] + [Word("SELECT")] == [Word("SELECT")];
    var texts := ColumnLexemes(columns);
    AnyColumnsRead(columns);
    ListRead(columns, texts, Reader([Word("SELECT")], Between));
    AfterKeyword(x, "SELECT ", [Word("SELECT")], Plain(StringUtils.Join(columns, ",")), Listed(texts));
    var (text, read) := (Plain("SELECT ") + Plain(StringUtils.Join(columns, ",")) + Plain(" "),
                         [Word("SELECT")] + Listed(texts));
    assert [] + read == read;
    var y := Reader(read, Between);
    TwoWordsAndBlank(y, "FROM", table);
    PlainJoin("FROM ", table);
    PlainJoin("FROM " + table, " ");
    ReadJoin(x, text, Plain("FROM ") + Plain(table) + Plain(" "));
  }

  lemma Keywords()
    ensures IsWord("SELECT") && IsWord("FROM")
  {
  }

  lemma AnyColumnsRead(columns: seq<string>)
    requires forall i :: 0 <= i < |columns| ==> Unquoted(columns[i])
    ensures EachRead(columns, ColumnLexemes(columns))
  {
    hide HasRead, Lex, Plain;
    forall i, x: Reader | 0 <= i < |columns| && x.mode.Between?
      ensures HasRead(x, Plain(columns[i]), ColumnLexemes(columns)[i])
    {
      ReadUnquoted(x, columns[i]);
    }
  }

  // ---------------------------------------------------------------- clauses left out

  lemma {:induction false} ParamsJoin(a: seq<Clause>, b: seq<Clause>)
    ensures ChainParams(a + b) == ChainParams(a) + ChainParams(b)
  {
    hide ClauseParams;
    if b == [] {
      assert a + b == a;
    } else {
      ParamsJoin(a, b[..|b| - 1]);
      assert (a + b)[..|a + b| - 1] == a + b[..|b| - 1];
    }
  }

  ghost predicate NoParams(cs: seq<Clause>) {
    forall j :: 0 <= j < |cs| ==> ClauseParams(cs[j]) == []
  }

  lemma {:induction false} NoParamsMeans(cs: seq<Clause>)
    ensures NoParams(cs) <==> ChainParams(cs) == []
  {
    hide ClauseParams;
    if cs != [] {
      var front := cs[..|cs| - 1];
      NoParamsMeans(front);
      assert NoParams(cs) ==> NoParams(front) && ClauseParams(cs[|cs| - 1]) == [];
      assert forall j :: 0 <= j < |front| ==> cs[j] == front[j];
    }
  }

  lemma NothingForNoParams(c: Clause, a: Args)
    requires ClauseFits(c, a) && ClauseParams(c) == []
    ensures Answers([], ClauseParams(c), a)
  {
  }

  lemma {:induction false} NothingForPrefix(cs: seq<Clause>, as_: seq<Args>)
    requires ChainFits(cs, as_) && NoParams(cs)
    ensures ChainAnswers([], cs, as_)
  {
    hide ClauseParams, ClauseFits, Answers;
    if cs != [] {
      var n := |cs| - 1;
      NothingForPrefix(cs[..n], as_[..n]);
      NothingForNoParams(cs[n], as_[n]);
      var none: seq<Value> := [];
      assert none[0..] == none && none[..0] == none;
    }
  }

  lemma {:induction false} AnswersPrepend(cs: seq<Clause>, as_: seq<Args>, n: nat, vs: seq<Value>)
    requires n <= |cs| && ChainFits(cs, as_) && NoParams(cs[..n]) && ChainAnswers(vs, cs[n..], as_[n..])
    ensures ChainAnswers(vs, cs, as_)
    decreases |cs|
  {
    hide ClauseParams, ClauseFits, Answers;
    if n == |cs| {
      assert cs[..n] == cs && as_[..n] == as_;
      NothingForPrefix(cs, as_);
    } else {
      var last := |cs| - 1;
      var m := |vs| - |ClauseParams(cs[last])|;
      assert cs[n..][..last - n] == cs[..last][n..] && as_[n..][..last - n] == as_[..last][n..];
      assert cs[..last][..n] == cs[..n];
      AnswersPrepend(cs[..last], as_[..last], n, vs[..m]);
    }
  }

  /** With clauses left out, the values bound are those of the clauses since the last gap; they answer to
      the placeholders of the whole statement exactly when no clause before that gap has a parameter. */
  lemma AlignedExactly(vs: seq<Value>, cs: seq<Clause>, as_: seq<Args>)
    requires ChainFits(cs, as_) && ChainAnswers(vs, cs[LastSkip(cs)..], as_[LastSkip(cs)..])
    ensures ChainAnswers(vs, cs, as_) <==> forall j :: 0 <= j < LastSkip(cs) ==> ClauseParams(cs[j]) == []
    ensures ChainAnswers(vs, cs, as_) <==> |vs| == |ChainParams(cs)|
  {
    hide ClauseParams, ClauseFits, ChainAnswers;
    var n := LastSkip(cs);
    assert cs == cs[..n] + cs[n..];
    ParamsJoin(cs[..n], cs[n..]);
    AsManyValues(vs, cs[n..], as_[n..]);
    NoParamsMeans(cs[..n]);
    if NoParams(cs[..n]) {
      AnswersPrepend(cs, as_, n, vs);
    }
    if ChainAnswers(vs, cs, as_) {
      AsManyValues(vs, cs, as_);
    }
  }

  lemma SkipNothing(cs: seq<Clause>)
    requires |cs| <= 1
    ensures LastSkip(cs) == 0
  {
  }

  /** The longest chain, with nothing left out. */
  lemma WholeChain(w: Expr, g: Clause, h: Expr, orders: seq<(string, string)>, n: Bound, m: Option<Bound>)
    requires g.GroupBy? || (g.GroupByColumns? && g.columns != [])
    requires orders != []
    ensures var cs := [Where(w), g, Having(h), OrderBy(orders), Limit(n, m)]; Accepted(cs) && LastSkip(cs) == 0
  {
    var cs := [Where(w), g, Having(h), OrderBy(orders), Limit(n, m)];
    hide LastSkip;
    SkipNothing(cs[..1]);
    SkipNext(cs, 1);
    SkipNext(cs, 2);
    SkipNext(cs, 3);
    SkipNext(cs, 4);
    assert cs[..5] == cs;
  }

  /** where, groupBy, orderBy, limit, with a parameter in the first and the last. */
  function GappedChain(age: Param, cnt: Param): seq<Clause> {
    [Where(Binary(LeftColumn("User.age"), "=", Placeholder(age))), GroupByColumns(["User.name"]),
     OrderBy([("User.age", "ASC")]), Limit(FromParam(cnt), None)]
  }

  function GappedArgs(who: Value, fifty: Value): seq<Args> {
    [Positional([who]), Positional([]), Positional([]), Positional([fifty])]
  }

  lemma GappedFirst(age: Param, cnt: Param)
    ensures ClauseParams(GappedChain(age, cnt)[0]) == [age] && ClauseParams(GappedChain(age, cnt)[3]) == [cnt]
  {
    assert OperandParams(Placeholder(age)) == [age];
  }

  lemma GappedParams(age: Param, cnt: Param)
    ensures ChainParams(GappedChain(age, cnt)) == [age, cnt]
  {
    var cs := GappedChain(age, cnt);
    hide ChainParams;
    NothingAnswers();
    GappedFirst(age, cnt);
    assert cs[..0] == [] && cs[..4] == cs;
    ParamsNext(cs, 0);
    ParamsNext(cs, 1);
    ParamsNext(cs, 2);
    ParamsNext(cs, 3);
  }

  lemma GappedSkip(age: Param, cnt: Param)
    ensures Accepted(GappedChain(age, cnt)) && LastSkip(GappedChain(age, cnt)) == 2
  {
    var cs := GappedChain(age, cnt);
    hide LastSkip;
    assert cs[..4] == cs;
    SkipNext(cs, 3);
    SkipNext(cs, 2);
  }

  /** The limit is bound to the place of the where clause, and the place of the limit gets nothing. */
  lemma LimitInPlaceOfWhere(age: Param, cnt: Param, who: Value, fifty: Value, vs: seq<Value>)
    requires who.typ == age.typ
    ensures var (cs, as_) := (GappedChain(age, cnt), GappedArgs(who, fifty));
            && Accepted(cs) && ChainFits(cs, as_) && LastSkip(cs) == 2 && ChainParams(cs) == [age, cnt]
            && (ChainAnswers(vs, cs[2..], as_[2..]) ==> vs == [fifty])
  {
    var (cs, as_) := (GappedChain(age, cnt), GappedArgs(who, fifty));
    GappedSkip(age, cnt);
    GappedParams(age, cnt);
    GappedFirst(age, cnt);
    hide LastSkip, ChainParams, ChainAnswers, Accepted;
    if ChainAnswers(vs, cs[2..], as_[2..]) {
      LastTwo(vs, cs[2..], as_[2..]);
    }
  }

  lemma OneClause(c: Clause)
    ensures ChainParams([c]) == ClauseParams(c)
  {
    assert [c][..0] == [];
  }

  lemma LastTwo(vs: seq<Value>, cs: seq<Clause>, as_: seq<Args>)
    requires |cs| == |as_| == 2 && ChainAnswers(vs, cs, as_) && ClauseParams(cs[0]) == []
    requires as_[1].Positional? && |as_[1].values| == 1 == |ClauseParams(cs[1])|
    ensures vs == as_[1].values
  {
    var n := |vs| - 1;
    assert Answers(vs[n..], ClauseParams(cs[1]), as_[1]);
    assert ChainAnswers(vs[..n], cs[..1], as_[..1]);
    assert cs[..1][..0] == [] && as_[..1][..0] == [];
    assert n == 0 by {
      AsManyValues(vs[..n], cs[..1], as_[..1]);
      assert cs[..1] == [cs[0]];
      OneClause(cs[0]);
    }
    assert BelongsTo(vs[n..][0], ClauseParams(cs[1]), 0, as_[1]);
  }

  lemma AnswersByPosition(vs: seq<Value>, ps: seq<Param>)
    requires |vs| == |ps|
    ensures Answers(vs, ps, Positional(vs))
  {
  }

  /** The cached statement of one place in the program. */
  class Statement {
    var sql: seq<Token>
    var prepared: seq<Token>
    var bound: map<nat, Value>
    var isInit: bool

    constructor ()
      ensures sql == [] && !isInit
    {
      sql, prepared, bound, isInit := [], [], map[], false;
    }

    /** Built for this chain once and for all, or not yet touched. */
    ghost predicate For(cs: seq<Clause>)
      reads this
    {
      if isInit then Marks(prepared) == ChainParams(cs) else sql == []
    }

    /** select and from: every column with a comma behind it, the last comma becomes a blank. */
    method SelectFrom(columns: seq<string>, table: string)
      requires columns != []
      modifies `sql
      ensures Marks(sql) == Marks(old(sql))
      ensures sql == old(sql) + if isInit then [] else SelectText(columns, table)
    {
      hide Plain, Marks, StringUtils.Join;
      if !isInit {
        AddList("SELECT ", columns);
        sql := Append(sql, "FROM ");
        sql := Append(sql, table);
        sql := Append(sql, " ");
        var names := Plain(StringUtils.Join(columns, ","));
        FromText(old(sql), Plain("SELECT ") + names + Plain(" "), Plain("FROM "), Plain(table), Plain(" "));
      }
    }

    method AddExpr(keyword: string, e: Expr)
      modifies `sql
      ensures Marks(sql) == Marks(old(sql)) + if isInit then [] else ExprParams(e)
      ensures isInit ==> sql == old(sql)
      ensures !isInit && FullExpr(e) ==> sql == old(sql) + (Plain(keyword) + ExprText(e) + Plain(" "))
    {
      hide Plain, ExprText, FullExpr, ExprParams;
      if !isInit {
        sql := Append(sql, keyword);
        var s := ExprToString(e);
        MarksJoin(sql, s);
        sql := Append(sql + s, " ");
        Associates(old(sql), Plain(keyword), s, Plain(" "));
      }
    }

    method AddLimitVal(b: Bound)
      modifies `sql
      ensures Marks(sql) == Marks(old(sql)) + BoundParams(b) && sql == old(sql) + BoundText(b)
    {
      match b
      case Fixed(digits) => sql := Append(sql, digits);
      case FromParam(p) => sql := sql + [Mark(p)];
    }

    /** Each name with a comma behind it; the last comma becomes a blank. */
    method AddList(keyword: string, names: seq<string>)
      requires names != []
      modifies `sql
      ensures Marks(sql) == Marks(old(sql))
      ensures sql == old(sql) + (Plain(keyword) + Plain(StringUtils.Join(names, ",")) + Plain(" "))
    {
      hide Plain, StringUtils.Join, Marks;
      sql := Append(sql, keyword);
      ghost var start := sql;
      for i := 0 to |names|
        invariant Marks(sql) == Marks(old(sql)) && (i > 0 ==> EndsPlain(sql))
        invariant sql == start + if i == 0 then [] else Plain(StringUtils.Join(names[..i], ",")) + Plain(",")
      {
        ghost var before := sql;
        sql := Append(sql, names[i]);
        sql := Append(sql, ",");
        JoinNext(start, before, names, i);
      }
      assert names[..|names|] == names;
      LastCommaToBlank(start, Plain(StringUtils.Join(names, ",")), sql);
      Associates(old(sql), Plain(keyword), Plain(StringUtils.Join(names, ",")), Plain(" "));
      sql := sql[..|sql| - 1] + [Ch(' ')];
    }

    /** One clause: its text, unless the statement is prepared, and its values behind those before it.
        The lists of groupBy and the limit are printed even then. */
    method Add(c: Clause, a: Args, tp: seq<Value>) returns (more: seq<Value>)
      requires ClauseFits(c, a)
      requires (c.GroupByColumns? ==> c.columns != []) && (c.OrderBy? ==> c.orders != [])
      modifies `sql
      ensures !isInit ==> Marks(sql) == Marks(old(sql)) + ClauseParams(c)
      ensures !isInit && FullClause(c) ==> sql == old(sql) + ClauseText(c)
      ensures isInit ==> sql == old(sql) + if c.GroupByColumns? || c.Limit? then ClauseText(c) else []
      ensures |more| >= |tp| && more[..|tp|] == tp && Answers(more[|tp|..], ClauseParams(c), a)
    {
      hide Marks, Answers, Fits, ExprParams, BoundParams, Plain, ExprText, FullExpr, BoundText, StringUtils.Join;
      NothingAnswers();
      var vs: seq<Value>;
      match c {
        case Where(e) =>
          AddExpr("WHERE ", e);
          vs := Pick(ExprParams(e), a);
        case GroupBy(e) =>
          AddExpr("GROUP BY ", e);
          vs := Pick(ExprParams(e), a);
        case GroupByColumns(columns) =>
          AddList("GROUP BY ", columns);
          vs := [];
        case Having(e) =>
          AddExpr("HAVING ", e);
          vs := Pick(ExprParams(e), a);
        case OrderBy(orders) =>
          if !isInit {
            AddList("ORDER BY ", OrderTexts(orders));
          }
          vs := [];
        case Limit(offset, maxCnt) =>
          sql := Append(sql, "LIMIT ");
          AddLimitVal(offset);
          if maxCnt.Some? {
            sql := Append(sql, ",");
            AddLimitVal(maxCnt.value);
            LimitText(old(sql), Plain("LIMIT "), BoundText(offset), Plain(","), BoundText(maxCnt.value));
          }
          vs := a.values;
          AnswersByPosition(vs, ClauseParams(c));
      }
      more := tp + vs;
      assert more[|tp|..] == vs && more[..|tp|] == tp;
    }

    /** Prepares the text the first time, then binds value Idx to place Idx + 1. */
    method Exec(tp: seq<Value>)
      modifies `prepared, `bound, `isInit
      ensures isInit && prepared == if old(isInit) then old(prepared) else sql
      ensures forall i: nat :: i in bound <==> 1 <= i <= |tp|
      ensures forall i :: 0 <= i < |tp| ==> bound[i + 1] == tp[i]
    {
      if !isInit {
        prepared := sql;
        isInit := true;
      }
      bound := map[];
      for idx := 0 to |tp|
        invariant isInit && prepared == if old(isInit) then old(prepared) else sql
        invariant forall i: nat :: i in bound <==> 1 <= i <= idx
        invariant forall i :: 0 <= i < idx ==> bound[i + 1] == tp[i]
      {
        bound := bound[idx + 1 := tp[idx]];
      }
    }

    /** A whole chain, for the first time or from the cache: the statement has the placeholders of all
        clauses, and the values bound are those of the clauses since the last one left out. */
    method Run(columns: seq<string>, table: string, cs: seq<Clause>, as_: seq<Args>) returns (ghost vs: seq<Value>)
      requires columns != [] && Accepted(cs) && ChainFits(cs, as_) && For(cs)
      modifies this
      ensures isInit && For(cs) && Marks(prepared) == ChainParams(cs)
      ensures !old(isInit) && FullChain(cs) ==> prepared == SelectText(columns, table) + ChainText(cs)
      ensures ChainAnswers(vs, cs[LastSkip(cs)..], as_[LastSkip(cs)..])
      ensures forall i: nat :: i in bound <==> 1 <= i <= |vs|
      ensures forall i :: 0 <= i < |vs| ==> bound[i + 1] == vs[i]
    {
      hide Marks, ClauseParams, Answers, ClauseFits, ChainAnswers, ChainParams, LastSkip;
      hide SelectText, ChainText, ClauseText, FullClause, Level;
      NothingAnswers();
      SkipNext(cs, 0);
      SelectFrom(columns, table);
      NoTextYet(SelectText(columns, table), cs);
      // the class of the builder object and its own tuple
      var level, tp: seq<Value> := 0, [];
      for j := 0 to |cs|
        invariant isInit == old(isInit) && prepared == old(prepared)
        invariant !isInit ==> Marks(sql) == ChainParams(cs[..j])
        invariant !isInit && FullChain(cs) ==> sql == SelectText(columns, table) + ChainText(cs[..j])
        invariant level == if j == 0 then 0 else Level(cs[j - 1]) + 1
        invariant LastSkip(cs[..j]) <= j && (j == 0 ==> tp == [] && LastSkip(cs[..j]) == 0)
        invariant ChainAnswers(tp, cs[..j][LastSkip(cs[..j])..], as_[..j][LastSkip(cs[..j])..])
      {
        SkipNext(cs, j);
        ChainTextNext(cs, j);
        ghost var n, m := LastSkip(cs[..j]), LastSkip(cs[..j + 1]);
        var own := if Level(cs[j]) == level || j == 0 then tp else [];
        var more := Add(cs[j], as_[j], own);
        AnswersGoOn(own, more, cs, as_, j, n, m);
        ParamsNext(cs, j);
        level, tp := Level(cs[j]) + 1, more;
      }
      assert cs[..|cs|] == cs && as_[..|as_|] == as_;
      Exec(tp);
      vs := tp;
    }
  }

  lemma NoTextYet(text: seq<Token>, cs: seq<Clause>)
    ensures [] + text == text + ChainText(cs[..0])
  {
    assert cs[..0] == [];
  }

  lemma FromText(s: seq<Token>, a: seq<Token>, b: seq<Token>, c: seq<Token>, d: seq<Token>)
    ensures s + a + b + c + d == s + (a + (b + c + d))
  {
  }

  lemma LimitText(s: seq<Token>, a: seq<Token>, b: seq<Token>, c: seq<Token>, d: seq<Token>)
    ensures s + a + b + c + d == s + (a + b + c + d) && s + a + b == s + (a + b)
  {
  }

  lemma {:induction false} JoinAppend(names: seq<string>, last: string)
    requires names != []
    ensures StringUtils.Join(names + [last], ",") == StringUtils.Join(names, ",") + "," + last
  {
    if |names| == 1 {
      assert (names + [last])[1..] == [last];
    } else {
      JoinAppend(names[1..], last);
      assert (names + [last])[1..] == names[1..] + [last];
    }
  }

  lemma JoinNext(start: seq<Token>, before: seq<Token>, names: seq<string>, i: nat)
    requires i < |names|
    requires before == start + if i == 0 then [] else Plain(StringUtils.Join(names[..i], ",")) + Plain(",")
    ensures before + Plain(names[i]) + Plain(",") == start + (Plain(StringUtils.Join(names[..i + 1], ",")) + Plain(","))
  {
    hide Plain;
    assert names[..i + 1] == names[..i] + [names[i]];
    if i == 0 {
      assert names[..1] == [names[0]];
      StringUtils.JoinOne(names[0], ",");
      hide StringUtils.Join;
    } else {
      JoinAppend(names[..i], names[i]);
      hide StringUtils.Join;
      PlainJoin(StringUtils.Join(names[..i], ","), ",");
      PlainJoin(StringUtils.Join(names[..i], ",") + ",", names[i]);
    }
  }

  lemma LastCommaToBlank(start: seq<Token>, text: seq<Token>, sql: seq<Token>)
    requires sql == start + (text + Plain(","))
    ensures sql != [] && sql[..|sql| - 1] + [Ch(' ')] == start + text + Plain(" ")
    ensures Marks(sql[..|sql| - 1] + [Ch(' ')]) == Marks(sql)
  {
    hide Plain, Marks;
    OneChar(',');
    OneChar(' ');
    Marked(sql, [Ch(' ')]);
    assert sql[..|sql| - 1] == start + text;
  }

  lemma SkipNext(cs: seq<Clause>, j: nat)
    requires j <= |cs|
    ensures j < |cs| ==> LastSkip(cs[..j + 1]) ==
                         if j == 0 then 0 else if Level(cs[j]) != Level(cs[j - 1]) + 1 then j else LastSkip(cs[..j])
    ensures LastSkip(cs[..j]) <= j && LastSkip(cs[..0]) == 0
    ensures 0 < j ==> LastSkip(cs[..j]) < j
  {
    if j < |cs| {
      assert cs[..j + 1][..j] == cs[..j];
    }
    SkipIsInside(cs[..j]);
  }

  lemma {:induction false} SkipIsInside(cs: seq<Clause>)
    ensures cs != [] ==> LastSkip(cs) < |cs|
  {
    if |cs| > 1 {
      SkipIsInside(cs[..|cs| - 1]);
    }
  }

  lemma ParamsNext(cs: seq<Clause>, j: nat)
    requires j < |cs|
    ensures ChainParams(cs[..j + 1]) == ChainParams(cs[..j]) + ClauseParams(cs[j])
  {
    assert cs[..j + 1][..j] == cs[..j];
  }
}
