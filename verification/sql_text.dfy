/** SQL expressions with placeholders: how they are printed, which parameters they collect, and how the
    printed text is read by anyone who takes it apart into words, quoted texts, placeholders and brackets. A
    placeholder token remembers the parameter it was printed for, which the printed text does not. */
module SqlTexts {
  /** param<T>, or param<T> with a bind name. */
  datatype Param = Param(typ: nat, name: string)

  datatype Token = Ch(c: char) | Mark(param: Param)

  datatype Expr =
    | Binary(left: Left, op: string, right: Operand)
    | TailOp(column: string, op: string)
    | HeadOp(op: string, column: string)

  datatype Left = LeftExpr(e: Expr) | LeftColumn(column: string)

  datatype Operand =
    | Placeholder(param: Param)
    | Sub(e: Expr)
    | Column(column: string)
    | Text(text: string)
    | Number(digits: string)
    | List(items: seq<Operand>)

  // ---------------------------------------------------------------- collecting

  function ExprParams(e: Expr): seq<Param> {
    match e
    case Binary(LeftExpr(l), _, r) => ExprParams(l) + OperandParams(r)
    case Binary(LeftColumn(_), _, r) => OperandParams(r)
    case _ => []
  }

  function OperandParams(o: Operand): seq<Param> {
    match o
    case Placeholder(p) => [p]
    case Sub(e) => ExprParams(e)
    case List(items) => ItemsParams(items)
    case _ => []
  }

  function ItemsParams(items: seq<Operand>): seq<Param> {
    if items == [] then [] else OperandParams(items[0]) + ItemsParams(items[1..])
  }

  // ---------------------------------------------------------------- printing

  function Plain(s: string): seq<Token> {
    seq(|s|, i requires 0 <= i < |s| => Ch(s[i]))
  }

  /** The parameters of the placeholders in a text, from left to right. */
  function Marks(text: seq<Token>): seq<Param> {
    if text == [] then []
    else Marks(text[..|text| - 1]) + (if text[|text| - 1].Mark? then [text[|text| - 1].param] else [])
  }

  lemma {:induction false} MarksJoin(a: seq<Token>, b: seq<Token>)
    ensures Marks(a + b) == Marks(a) + Marks(b)
  {
    if b == [] {
      assert a + b == a;
    } else {
      assert (a + b)[..|a + b| - 1] == a + b[..|b| - 1];
      MarksJoin(a, b[..|b| - 1]);
    }
  }

  predicate EndsPlain(text: seq<Token>) {
    text != [] && text[|text| - 1].Ch?
  }

  /** res += s, for a text without placeholders. */
  method Append(res: seq<Token>, s: string) returns (r: seq<Token>)
    ensures r == res + Plain(s) && Marks(r) == Marks(res)
    ensures s != "" ==> EndsPlain(r)
  {
    r := res + Plain(s);
    MarksJoin(res, Plain(s));
    NoMarks(Plain(s));
  }

  lemma {:induction false} NoMarks(text: seq<Token>)
    requires forall i :: 0 <= i < |text| ==> text[i].Ch?
    ensures Marks(text) == []
  {
    if text != [] {
      NoMarks(text[..|text| - 1]);
    }
  }

  lemma PlainJoin(a: string, b: string)
    ensures Plain(a + b) == Plain(a) + Plain(b)
  {
  }

  /** An empty list takes back a character of what stands before it; such expressions have no text of their
      own. */
  predicate FullExpr(e: Expr) {
    match e
    case Binary(LeftExpr(l), _, r) => FullExpr(l) && FullOperand(r)
    case Binary(LeftColumn(_), _, r) => FullOperand(r)
    case _ => true
  }

  predicate FullOperand(o: Operand) {
    match o
    case Sub(e) => FullExpr(e)
    case List(items) => items != [] && forall i :: 0 <= i < |items| ==> FullOperand(items[i])
    case _ => true
  }

  function ExprText(e: Expr): seq<Token> {
    match e
    case Binary(LeftExpr(l), op, r) => ExprText(l) + Plain(" ") + Plain(op) + Plain(" ") + OperandText(r)
    case Binary(LeftColumn(column), op, r) => Plain(column) + Plain(" ") + Plain(op) + Plain(" ") + OperandText(r)
    case TailOp(column, op) => Plain(column) + Plain(" ") + Plain(op)
    case HeadOp(op, column) => Plain(op) + Plain(" ") + Plain(column)
  }

  function OperandText(o: Operand): seq<Token>
    decreases o, 0
  {
    match o
    case Placeholder(p) => [Mark(p)]
    case Sub(e) => ExprText(e)
    case Column(column) => Plain(column)
    case Text(text) => Plain("'") + Plain(text) + Plain("'")
    case Number(digits) => Plain(digits)
    case List(items) =>
      if |items| == 1 then OperandText(items[0]) else Plain("(") + ItemsText(items) + Plain(")")
  }

  /** The elements with commas between them. */
  function ItemsText(items: seq<Operand>): seq<Token>
    decreases items, 0
  {
    if items == [] then []
    else if |items| == 1 then OperandText(items[0])
    else OperandText(items[0]) + Plain(",") + ItemsText(items[1..])
  }

  /** ... with a comma behind each. */
  function WithCommas(items: seq<Operand>): seq<Token> {
    if items == [] then [] else OperandText(items[0]) + Plain(",") + WithCommas(items[1..])
  }

  lemma {:induction false} LastComma(items: seq<Operand>)
    requires items != []
    ensures WithCommas(items) == ItemsText(items) + Plain(",")
  {
    hide OperandText;
    if |items| > 1 {
      LastComma(items[1..]);
    } else {
      assert WithCommas(items[1..]) == [];
    }
  }

  lemma OperandMeans(o: Operand)
    ensures match o
            case Placeholder(p) => OperandText(o) == [Mark(p)] && OperandParams(o) == [p]
            case Sub(e) =>
              OperandText(o) == ExprText(e) && OperandParams(o) == ExprParams(e) && FullOperand(o) == FullExpr(e)
            case Column(column) => OperandText(o) == Plain(column) && OperandParams(o) == []
            case Text(text) => OperandText(o) == Plain("'") + Plain(text) + Plain("'") && OperandParams(o) == []
            case Number(digits) => OperandText(o) == Plain(digits) && OperandParams(o) == []
            case List(items) => OperandParams(o) == ItemsParams(items)
  {
  }

  lemma ListMeans(o: Operand)
    requires o.List?
    ensures OperandText(o)
            == if |o.items| == 1 then ItemsText(o.items) else Plain("(") + ItemsText(o.items) + Plain(")")
    ensures FullOperand(o) <==> o.items != [] && forall i :: 0 <= i < |o.items| ==> FullOperand(o.items[i])
  {
  }

  lemma ExprMeans(e: Expr)
    ensures match e
            case Binary(LeftExpr(l), op, r) =>
              && ExprText(e) == ExprText(l) + Plain(" ") + Plain(op) + Plain(" ") + OperandText(r)
              && ExprParams(e) == ExprParams(l) + OperandParams(r) && FullExpr(e) == (FullExpr(l) && FullOperand(r))
            case Binary(LeftColumn(column), op, r) =>
              && ExprText(e) == Plain(column) + Plain(" ") + Plain(op) + Plain(" ") + OperandText(r)
              && ExprParams(e) == OperandParams(r) && FullExpr(e) == FullOperand(r)
            case TailOp(column, op) => ExprText(e) == Plain(column) + Plain(" ") + Plain(op) && ExprParams(e) == []
            case HeadOp(op, column) => ExprText(e) == Plain(op) + Plain(" ") + Plain(column) && ExprParams(e) == []
  {
  }

  lemma Associates(res: seq<Token>, a: seq<Token>, b: seq<Token>, c: seq<Token>)
    ensures res + a + b + c == res + (a + b + c) && res + a + b == res + (a + b)
  {
  }

  lemma MarksOne(res: seq<Token>, p: Param)
    ensures Marks(res + [Mark(p)]) == Marks(res) + [p] && Marks([]) == []
  {
    assert (res + [Mark(p)])[..|res|] == res;
  }

  /** The placeholders printed are the parameters collected, in the same order; also where a list of
      one or no element takes back a character. */
  method ExpandExpr(o: Operand, res: seq<Token>) returns (r: seq<Token>)
    requires EndsPlain(res)
    ensures Marks(r) == Marks(res) + OperandParams(o)
    ensures FullOperand(o) ==> r == res + OperandText(o)
    ensures o == List([]) ==> r == res[..|res| - 1]
    decreases o, 2
  {
    hide Marks, Plain, ExprText, OperandText, FullExpr, FullOperand, ExprParams, OperandParams, ItemsParams;
    OperandMeans(o);
    match o
    case Placeholder(p) =>
      r := res + [Mark(p)];
      MarksOne(res, p);
    case Sub(e) =>
      var s := ExprToString(e);
      r := res + s;
      MarksJoin(res, s);
    case Column(name) =>
      r := Append(res, name);
    case Text(text) =>
      r := Append(res, "'");
      r := Append(r, text);
      r := Append(r, "'");
      Associates(res, Plain("'"), Plain(text), Plain("'"));
    case Number(digits) =>
      r := Append(res, digits);
    case List(_) =>
      r := ExpandList(o, res);
  }

  /** The last comma becomes the closing bracket, or goes if there is no bracket. */
  method ExpandList(o: Operand, res: seq<Token>) returns (r: seq<Token>)
    requires o.List? && EndsPlain(res)
    ensures Marks(r) == Marks(res) + ItemsParams(o.items)
    ensures FullOperand(o) ==> r == res + OperandText(o)
    ensures o.items == [] ==> r == res[..|res| - 1]
    decreases o, 1
  {
    hide Marks, Plain, ExprText, OperandText, FullExpr, FullOperand, ExprParams, OperandParams, ItemsParams;
    hide WithCommas, ItemsText;
    ListMeans(o);
    r := res;
    if |o.items| > 1 {
      r := Append(r, "(");
    }
    ghost var front := r;
    r := ExpandItems(o, r);
    CutComma(front, o.items, r);
    if |o.items| > 1 {
      Marked(r, [Ch(')')]);
      r := r[..|r| - 1] + [Ch(')')];
      OneChar(')');
      Associates(res, Plain("("), ItemsText(o.items), Plain(")"));
    } else {
      Marked(r, []);
      r := r[..|r| - 1];
    }
  }

  lemma OneChar(c: char)
    ensures Plain([c]) == [Ch(c)]
  {
  }

  /** A plain character at the end can go, or be exchanged for others. */
  lemma Marked(r: seq<Token>, c: seq<Token>)
    requires EndsPlain(r) && forall i :: 0 <= i < |c| ==> c[i].Ch?
    ensures Marks(r[..|r| - 1] + c) == Marks(r) && r[..|r| - 1] + [] == r[..|r| - 1]
  {
    NoMarks(c);
    MarksJoin(r[..|r| - 1], c);
  }

  lemma CutComma(front: seq<Token>, items: seq<Operand>, r: seq<Token>)
    ensures items != [] && r == front + WithCommas(items) ==> r != [] && r[..|r| - 1] == front + ItemsText(items)
  {
    hide WithCommas, ItemsText;
    if items != [] {
      LastComma(items);
      OneChar(',');
    }
  }

  /** Every element with a comma behind it. */
  method ExpandItems(o: Operand, res: seq<Token>) returns (r: seq<Token>)
    requires o.List? && EndsPlain(res)
    ensures EndsPlain(r) && Marks(r) == Marks(res) + ItemsParams(o.items)
    ensures (forall i :: 0 <= i < |o.items| ==> FullOperand(o.items[i])) ==> r == res + WithCommas(o.items)
    ensures o.items == [] ==> r == res
    decreases o, 0
  {
    hide Marks, Plain, ExprText, OperandText, FullExpr, FullOperand, ExprParams, OperandParams, ItemsParams, WithCommas;
    var items := o.items;
    r := res;
    assert items[0..] == items;
    for i := 0 to |items|
      invariant EndsPlain(r) && Marks(r) + ItemsParams(items[i..]) == Marks(res) + ItemsParams(items)
      invariant (forall j :: 0 <= j < |items| ==> FullOperand(items[j]))
                ==> r + WithCommas(items[i..]) == res + WithCommas(items)
      invariant i == 0 ==> r == res
    {
      ghost var front := r;
      r := ExpandExpr(items[i], r);
      r := Append(r, ",");
      ItemsNext(items, i);
      Associates(front, OperandText(items[i]), Plain(","), WithCommas(items[i + 1..]));
    }
    ItemsEnd(items);
  }

  lemma ItemsNext(items: seq<Operand>, i: nat)
    requires i < |items|
    ensures ItemsParams(items[i..]) == OperandParams(items[i]) + ItemsParams(items[i + 1..])
    ensures WithCommas(items[i..]) == OperandText(items[i]) + Plain(",") + WithCommas(items[i + 1..])
  {
    assert items[i..][1..] == items[i + 1..];
  }

  lemma ItemsEnd(items: seq<Operand>)
    ensures ItemsParams(items[|items|..]) == [] && WithCommas(items[|items|..]) == []
  {
  }

  method ExprToString(e: Expr) returns (res: seq<Token>)
    ensures Marks(res) == ExprParams(e)
    ensures FullExpr(e) ==> res == ExprText(e)
    decreases e, 3
  {
    hide Marks, Plain, ExprText, OperandText, FullExpr, FullOperand, ExprParams, OperandParams;
    ExprMeans(e);
    res := [];
    MarksOne([], Param(0, ""));
    match e
    case Binary(left, op, right) =>
      match left {
        case LeftExpr(l) =>
          var s := ExprToString(l);
          res := res + s;
          assert [] + s == s;
        case LeftColumn(name) =>
          res := Append(res, name);
          assert [] + Plain(name) == Plain(name);
      }
      res := Append(res, " ");
      res := Append(res, op);
      res := Append(res, " ");
      res := ExpandExpr(right, res);
    case TailOp(column, op) =>
      res := Append(res, column);
      res := Append(res, " ");
      res := Append(res, op);
      assert [] + Plain(column) == Plain(column);
    case HeadOp(op, column) =>
      res := Append(res, op);
      res := Append(res, " ");
      res := Append(res, column);
      assert [] + Plain(op) == Plain(op);
  }

  // ---------------------------------------------------------------- reading the text

  datatype Lexeme =
    | Word(s: string)
    | Quoted(s: string)
    | Hole(param: Param)
    | Open
    | Comma
    | Close

  datatype Mode = Between | InWord(s: string) | InQuote(s: string)

  /** A reader of SQL text: what it has read, and where it stands. */
  datatype Reader = Reader(done: seq<Lexeme>, mode: Mode)

  function Flush(x: Reader): seq<Lexeme> {
    if x.mode.InWord? then x.done + [Word(x.mode.s)] else x.done
  }

  function Next(x: Reader, t: Token): Reader {
    if x.mode.InQuote? then
      match t
      case Ch(c) =>
        if c == '\'' then Reader(x.done + [Quoted(x.mode.s)], Between) else x.(mode := InQuote(x.mode.s + [c]))
      case Mark(_) => x
    else
      match t
      case Mark(p) => Reader(Flush(x) + [Hole(p)], Between)
      case Ch(c) =>
        if c == ' ' then Reader(Flush(x), Between)
        else if c == '\'' then Reader(Flush(x), InQuote(""))
        else if c == '(' then Reader(Flush(x) + [Open], Between)
        else if c == ',' then Reader(Flush(x) + [Comma], Between)
        else if c == ')' then Reader(Flush(x) + [Close], Between)
        else x.(mode := InWord(if x.mode.InWord? then x.mode.s + [c] else [c]))
  }

  function Read(x: Reader, text: seq<Token>): Reader {
    if text == [] then x else Next(Read(x, text[..|text| - 1]), text[|text| - 1])
  }

  function Lex(text: seq<Token>): seq<Lexeme> {
    Flush(Read(Reader([], Between), text))
  }

  lemma {:induction false} ReadJoin(x: Reader, a: seq<Token>, b: seq<Token>)
    ensures Read(x, a + b) == Read(Read(x, a), b)
  {
    hide Next;
    if b == [] {
      assert a + b == a;
    } else {
      ReadJoin(x, a, b[..|b| - 1]);
      assert (a + b)[..|a + b| - 1] == a + b[..|b| - 1];
    }
  }

  lemma ReadOne(x: Reader, c: char)
    ensures Read(x, Plain([c])) == Next(x, Ch(c)) && Read(x, []) == x
  {
    OneChar(c);
    assert [Ch(c)][..0] == [];
  }

  predicate WordChar(c: char) {
    c != ' ' && c != '\'' && c != '(' && c != ',' && c != ')'
  }

  predicate IsWord(s: string) {
    s != "" && forall i :: 0 <= i < |s| ==> WordChar(s[i])
  }

  predicate Unquoted(s: string) {
    forall i :: 0 <= i < |s| ==> s[i] != '\''
  }

  lemma PlainLast(s: string)
    requires s != ""
    ensures Plain(s)[..|s| - 1] == Plain(s[..|s| - 1]) && Plain(s)[|s| - 1] == Ch(s[|s| - 1]) && |Plain(s)| == |s|
  {
  }

  lemma {:induction false} ReadWord(x: Reader, s: string)
    requires x.mode.Between? && IsWord(s)
    ensures Read(x, Plain(s)) == Reader(x.done, InWord(s))
  {
    PlainLast(s);
    if |s| == 1 {
      assert Plain(s)[..0] == [];
      assert s == [s[0]];
    } else {
      ReadWord(x, s[..|s| - 1]);
      assert s == s[..|s| - 1] + [s[|s| - 1]];
    }
  }

  lemma {:induction false} ReadInQuotes(x: Reader, s: string)
    requires x.mode == InQuote("") && Unquoted(s)
    ensures Read(x, Plain(s)) == Reader(x.done, InQuote(s))
  {
    if s != "" {
      PlainLast(s);
      ReadInQuotes(x, s[..|s| - 1]);
      assert s == s[..|s| - 1] + [s[|s| - 1]];
    }
  }

  /** What was read before makes no difference to what is read next. */
  lemma {:induction false} ReadLater(done: seq<Lexeme>, x: Reader, text: seq<Token>)
    ensures Read(x.(done := done + x.done), text) == Read(x, text).(done := done + Read(x, text).done)
  {
    if text != [] {
      ReadLater(done, x, text[..|text| - 1]);
      NextLater(done, Read(x, text[..|text| - 1]), text[|text| - 1]);
    }
  }

  lemma NextLater(done: seq<Lexeme>, x: Reader, t: Token)
    ensures Next(x.(done := done + x.done), t) == Next(x, t).(done := done + Next(x, t).done)
  {
    FlushLater(done, x);
    match t
    case Mark(p) => Associate(done, Flush(x), [Hole(p)]);
    case Ch(_) =>
      Associate(done, Flush(x), [Open]);
      Associate(done, Flush(x), [Comma]);
      Associate(done, Flush(x), [Close]);
      if x.mode.InQuote? {
        Associate(done, x.done, [Quoted(x.mode.s)]);
      }
  }

  lemma FlushLater(done: seq<Lexeme>, x: Reader)
    ensures Flush(x.(done := done + x.done)) == done + Flush(x)
  {
  }

  lemma Associate(a: seq<Lexeme>, b: seq<Lexeme>, c: seq<Lexeme>)
    ensures a + b + c == a + (b + c)
  {
  }

  lemma {:induction false} NoQuoteOpen(x: Reader, s: string)
    requires !x.mode.InQuote? && Unquoted(s)
    ensures !Read(x, Plain(s)).mode.InQuote?
  {
    if s != "" {
      PlainLast(s);
      NoQuoteOpen(x, s[..|s| - 1]);
    }
  }

  /** The reader stands between or in a word, and has read `more` since x. */
  ghost predicate HasRead(x: Reader, text: seq<Token>, more: seq<Lexeme>) {
    !Read(x, text).mode.InQuote? && Flush(Read(x, text)) == x.done + more
  }

  lemma ReadUnquoted(x: Reader, s: string)
    requires x.mode.Between? && Unquoted(s)
    ensures HasRead(x, Plain(s), Lex(Plain(s)))
  {
    NoQuoteOpen(x, s);
    ReadLater(x.done, Reader([], Between), Plain(s));
    assert x.done + [] == x.done;
    FlushLater(x.done, Read(Reader([], Between), Plain(s)));
  }

  /** A separator ends the word. */
  lemma ReadSeparator(x: Reader, text: seq<Token>, more: seq<Lexeme>, c: char)
    requires HasRead(x, text, more) && (c == ' ' || c == ',' || c == ')')
    ensures Read(x, text + Plain([c]))
            == Reader(x.done + more + (if c == ',' then [Comma] else if c == ')' then [Close] else []), Between)
  {
    ReadJoin(x, text, Plain([c]));
    ReadOne(Read(x, text), c);
    assert x.done + more + [] == x.done + more;
  }

  lemma HasReadJoin(x: Reader, a: seq<Token>, b: seq<Token>, before: seq<Lexeme>, more: seq<Lexeme>)
    requires Read(x, a) == Reader(x.done + before, Between) && HasRead(Read(x, a), b, more)
    ensures HasRead(x, a + b, before + more)
  {
    ReadJoin(x, a, b);
    Associate(x.done, before, more);
  }

  // ---------------------------------------------------------------- what is read

  /** Names and numbers are single words, operators are words with blanks between them, texts have no quote. */
  predicate ProperExpr(e: Expr) {
    match e
    case Binary(LeftExpr(l), op, r) => ProperExpr(l) && Unquoted(op) && ProperOperand(r)
    case Binary(LeftColumn(column), op, r) => IsWord(column) && Unquoted(op) && ProperOperand(r)
    case TailOp(column, op) => IsWord(column) && Unquoted(op)
    case HeadOp(op, column) => IsWord(column) && Unquoted(op)
  }

  predicate ProperOperand(o: Operand) {
    match o
    case Placeholder(_) => true
    case Sub(e) => ProperExpr(e)
    case Column(column) => IsWord(column)
    case Text(text) => Unquoted(text)
    case Number(digits) => IsWord(digits)
    case List(items) => items != [] && forall i :: 0 <= i < |items| ==> ProperOperand(items[i])
  }

  /** An expression from left to right. */
  function ExprLexemes(e: Expr): seq<Lexeme> {
    match e
    case Binary(LeftExpr(l), op, r) => ExprLexemes(l) + Lex(Plain(op)) + OperandLexemes(r)
    case Binary(LeftColumn(column), op, r) => [Word(column)] + Lex(Plain(op)) + OperandLexemes(r)
    case TailOp(column, op) => [Word(column)] + Lex(Plain(op))
    case HeadOp(op, column) => Lex(Plain(op)) + [Word(column)]
  }

  function OperandLexemes(o: Operand): seq<Lexeme>
    decreases o, 0
  {
    match o
    case Placeholder(p) => [Hole(p)]
    case Sub(e) => ExprLexemes(e)
    case Column(column) => [Word(column)]
    case Text(text) => [Quoted(text)]
    case Number(digits) => [Word(digits)]
    case List(items) => if |items| == 1 then OperandLexemes(items[0]) else [Open] + ItemsLexemes(items) + [Close]
  }

  function ItemsLexemes(items: seq<Operand>): seq<Lexeme>
    decreases items, 0
  {
    if items == [] then []
    else if |items| == 1 then OperandLexemes(items[0])
    else OperandLexemes(items[0]) + [Comma] + ItemsLexemes(items[1..])
  }

  lemma {:induction false} ProperIsFull(e: Expr)
    requires ProperExpr(e)
    ensures FullExpr(e)
  {
    match e
    case Binary(LeftExpr(l), _, r) =>
      ProperIsFull(l);
      ProperIsFullOperand(r);
    case Binary(LeftColumn(_), _, r) => ProperIsFullOperand(r);
    case _ =>
  }

  lemma {:induction false} ProperIsFullOperand(o: Operand)
    requires ProperOperand(o)
    ensures FullOperand(o)
  {
    match o
    case Sub(e) => ProperIsFull(e);
    case List(items) =>
      forall i | 0 <= i < |items| ensures FullOperand(items[i]) {
        ProperIsFullOperand(items[i]);
      }
    case _ =>
  }

  lemma WordRead(x: Reader, s: string)
    requires x.mode.Between? && IsWord(s)
    ensures HasRead(x, Plain(s), [Word(s)])
  {
    ReadWord(x, s);
  }

  /** Left operand, operator and right operand, with a blank between them. */
  lemma BinaryRead(x: Reader, left: seq<Token>, op: string, right: seq<Token>, l: seq<Lexeme>, r: seq<Lexeme>)
    requires x.mode.Between? && HasRead(x, left, l) && Unquoted(op)
    requires forall y: Reader :: y.mode.Between? ==> HasRead(y, right, r)
    ensures HasRead(x, left + Plain(" ") + Plain(op) + Plain(" ") + right, l + Lex(Plain(op)) + r)
  {
    hide HasRead, Read, Flush, Lex, Plain;
    var o := Lex(Plain(op));
    ReadSeparator(x, left, l, ' ');
    assert x.done + l + [] == x.done + l && l + o + [] == l + o;
    ReadUnquoted(Read(x, left + Plain(" ")), op);
    HasReadJoin(x, left + Plain(" "), Plain(op), l, o);
    ReadSeparator(x, left + Plain(" ") + Plain(op), l + o, ' ');
    assert x.done + (l + o) + [] == x.done + (l + o);
    HasReadJoin(x, left + Plain(" ") + Plain(op) + Plain(" "), right, l + o, r);
  }

  /** The printed text of an expression reads as the expression from left to right: left operand, operator,
      right operand, whatever they are, with lists in brackets and their elements between commas. */
  lemma {:induction false} ExprRead(e: Expr, x: Reader)
    requires ProperExpr(e) && x.mode.Between?
    ensures HasRead(x, ExprText(e), ExprLexemes(e))
    decreases e, 3
  {
    hide HasRead, Read, Flush, Lex, Plain, OperandText, OperandLexemes;
    match e
    case Binary(left, op, r) =>
      forall y: Reader | y.mode.Between? ensures HasRead(y, OperandText(r), OperandLexemes(r)) {
        OperandRead(r, y);
      }
      match left {
        case LeftExpr(l) =>
          ExprRead(l, x);
          BinaryRead(x, ExprText(l), op, OperandText(r), ExprLexemes(l), OperandLexemes(r));
        case LeftColumn(column) =>
          WordRead(x, column);
          BinaryRead(x, Plain(column), op, OperandText(r), [Word(column)], OperandLexemes(r));
      }
    case TailOp(column, op) =>
      WordRead(x, column);
      ReadSeparator(x, Plain(column), [Word(column)], ' ');
      assert x.done + [Word(column)] + [] == x.done + [Word(column)];
      ReadUnquoted(Read(x, Plain(column) + Plain(" ")), op);
      HasReadJoin(x, Plain(column) + Plain(" "), Plain(op), [Word(column)], Lex(Plain(op)));
    case HeadOp(op, column) =>
      var o := Lex(Plain(op));
      ReadUnquoted(x, op);
      ReadSeparator(x, Plain(op), o, ' ');
      assert x.done + o + [] == x.done + o;
      WordRead(Read(x, Plain(op) + Plain(" ")), column);
      HasReadJoin(x, Plain(op) + Plain(" "), Plain(column), o, [Word(column)]);
  }

  lemma {:induction false} OperandRead(o: Operand, x: Reader)
    requires ProperOperand(o) && x.mode.Between?
    ensures HasRead(x, OperandText(o), OperandLexemes(o))
    decreases o, 2
  {
    hide Read, Plain, ExprText, ExprLexemes, ItemsText, ItemsLexemes, Next, Lex;
    match o
    case Placeholder(p) => HoleRead(x, p);
    case Sub(e) => ExprRead(e, x);
    case Column(column) => WordRead(x, column);
    case Text(text) => QuotedRead(x, text);
    case Number(digits) => WordRead(x, digits);
    case List(items) =>
      if |items| == 1 {
        OperandRead(items[0], x);
      } else {
        ListRead(o, x);
      }
  }

  lemma HoleRead(x: Reader, p: Param)
    requires x.mode.Between?
    ensures HasRead(x, [Mark(p)], [Hole(p)])
  {
    assert [Mark(p)][..0] == [];
    assert Read(x, []) == x;
  }

  lemma QuotedRead(x: Reader, text: string)
    requires x.mode.Between? && Unquoted(text)
    ensures HasRead(x, Plain("'") + Plain(text) + Plain("'"), [Quoted(text)])
  {
    hide Read, Plain;
    ReadJoin(x, Plain("'"), Plain(text));
    ReadJoin(x, Plain("'") + Plain(text), Plain("'"));
    ReadOne(x, '\'');
    ReadInQuotes(Read(x, Plain("'")), text);
    ReadOne(Read(x, Plain("'") + Plain(text)), '\'');
  }

  lemma {:induction false} ListRead(o: Operand, x: Reader)
    requires o.List? && |o.items| > 1 && ProperOperand(o) && x.mode.Between?
    ensures HasRead(x, Plain("(") + ItemsText(o.items) + Plain(")"), [Open] + ItemsLexemes(o.items) + [Close])
    decreases o, 1
  {
    hide Read, Plain, ItemsText, ItemsLexemes, HasRead;
    var items := o.items;
    ReadOne(x, '(');
    var y := Read(x, Plain("("));
    assert y == Reader(x.done + [Open], Between);
    ItemsRead(o, 0, y);
    assert items[0..] == items;
    HasReadJoin(x, Plain("("), ItemsText(items), [Open], ItemsLexemes(items));
    ReadSeparator(x, Plain("(") + ItemsText(items), [Open] + ItemsLexemes(items), ')');
    CloseRead(x, Plain("(") + ItemsText(items) + Plain(")"), [Open] + ItemsLexemes(items));
  }

  lemma CloseRead(x: Reader, text: seq<Token>, more: seq<Lexeme>)
    requires Read(x, text) == Reader(x.done + more + [Close], Between)
    ensures HasRead(x, text, more + [Close])
  {
    Associate(x.done, more, [Close]);
  }

  lemma {:induction false} ItemsRead(o: Operand, i: nat, x: Reader)
    requires o.List? && i < |o.items| && ProperOperand(o) && x.mode.Between?
    ensures HasRead(x, ItemsText(o.items[i..]), ItemsLexemes(o.items[i..]))
    decreases o, 0, |o.items| - i
  {
    hide Read, Plain, HasRead, OperandText, OperandLexemes, Next, Flush, Lex;
    var rest := o.items[i..];
    var text, read := OperandText(rest[0]), OperandLexemes(rest[0]);
    OperandRead(rest[0], x);
    if |rest| > 1 {
      ReadSeparator(x, text, read, ',');
      Associate(x.done, read, [Comma]);
      ItemsRead(o, i + 1, Read(x, text + Plain(",")));
      assert rest[1..] == o.items[i + 1..];
      HasReadJoin(x, text + Plain(","), ItemsText(rest[1..]), read + [Comma], ItemsLexemes(rest[1..]));
    }
  }

  /** Hence ... */
  lemma TextReads(e: Expr)
    requires ProperExpr(e)
    ensures FullExpr(e) && Lex(ExprText(e)) == ExprLexemes(e)
  {
    ProperIsFull(e);
    ExprRead(e, Reader([], Between));
    hide ExprText, ExprLexemes;
    assert [] + ExprLexemes(e) == ExprLexemes(e);
  }

  lemma ItemsTwo(a: Operand, b: Operand)
    ensures ItemsText([a, b]) == OperandText(a) + Plain(",") + OperandText(b)
  {
    hide OperandText;
    assert [a, b][1..] == [b];
    assert ItemsText([b]) == OperandText(b);
  }

  /** A comparison, operators with one operand, and a list of a text and a placeholder. */
  lemma PrintedExamples()
    ensures ExprText(Binary(LeftColumn("User.age"), ">", Number("18"))) == Plain("User.age > 18")
    ensures ExprText(TailOp("a", "IS NULL")) == Plain("a IS NULL") && ExprText(HeadOp("NOT", "a")) == Plain("NOT a")
  {
    hide OperandText;
    OperandMeans(Number("18"));
  }

  lemma PrintedList(p: Param)
    ensures ExprText(Binary(LeftColumn("a"), "NOT IN", List([Text("x y"), Placeholder(p)])))
            == Plain("a NOT IN ('x y',") + [Mark(p)] + Plain(")")
  {
    hide Plain, ExprText, OperandText, ItemsText;
    var list := List([Text("x y"), Placeholder(p)]);
    ExprMeans(Binary(LeftColumn("a"), "NOT IN", list));
    ListMeans(list);
    ItemsTwo(Text("x y"), Placeholder(p));
    OperandMeans(Text("x y"));
    OperandMeans(Placeholder(p));
    PlainJoin("a", " ");
    PlainJoin("a ", "NOT IN");
    PlainJoin("a NOT IN", " ");
    PlainJoin("'", "x y");
    PlainJoin("'x y", "'");
    PlainJoin("'x y'", ",");
    PlainJoin("a NOT IN ", "(");
    PlainJoin("a NOT IN (", "'x y',");
    assert "a" + " " == "a " && "a " + "NOT IN" == "a NOT IN" && "a NOT IN" + " " == "a NOT IN ";
    assert "'" + "x y" == "'x y" && "'x y" + "'" == "'x y'" && "'x y'" + "," == "'x y',";
    assert "a NOT IN " + "(" == "a NOT IN (" && "a NOT IN (" + "'x y'," == "a NOT IN ('x y',";
    Regroup(Plain("a NOT IN "), Plain("("), Plain("'x y',"), [Mark(p)], Plain(")"));
  }

  lemma Regroup(a: seq<Token>, b: seq<Token>, c: seq<Token>, d: seq<Token>, e: seq<Token>)
    ensures a + (b + (c + d) + e) == a + b + c + d + e
  {
  }
}
