/** The WHERE compiler end to end (src/sql_plan.cpp against tests/mock_salesforce.py). */
module Compiler {
  import opened Wrappers
  import opened Text
  import opened Sql
  import opened SqlPlan
  import opened SqlMeaning
  import opened SqlProof
  import opened Fidelity
  import opened SoqlReading
  import DateTime
  import S = Soql

  // ---------------------------------------------------------------- meaning preservation

  /** The compiled condition of `e` with its parameters bound. */
  function Bound(env: Env, e: Expr, params: seq<Lit>): Result<S.Tree<S.Value>> {
    var c :- Compile(env, e);
    if c.Decided? then Err("") else Bind(env, c.tree, params)
  }

  /** The text of a rendered condition, read back with the org's grammar and evaluated on any
      record, answers what the org is asked; that is the meaning of the SQL condition if it meets
      the guard. A constant is its meaning on every record. */
  lemma WhereMeaning(env: Env, org: Org, e: Expr, params: seq<Lit>, rec: Record)
    requires Lists(e) && Render(env, e).Ok?
    ensures Render(env, e).value.Const? ==>
              Render(env, e).value.value == Meaning(env, org, e, params, rec) == SentMeaning(env, org, e, params, rec)
    ensures Render(env, e).value.Text? ==>
              var text := Fill(env, Render(env, e).value.parts, params);
              (text.Ok? <==> Bound(env, e, params).Ok?) &&
              (text.Ok? && Readable(Bound(env, e, params).value) ==>
                 S.Read(text.value).Some? &&
                 Eval(org, S.Read(text.value).value, rec) == SentMeaning(env, org, e, params, rec))
    ensures Exact(env, e, params) ==> SentMeaning(env, org, e, params, rec) == Meaning(env, org, e, params, rec)
  {
    hide S.Read, S.TreeText, Fill, Eval, Meaning, SentMeaning, Render, Compile, Bind, Readable, Exact;
    RenderAgrees(env, e, params);
    CompileKept(env, org, e, params, rec);
    if Exact(env, e, params) {
      ExactFaithful(env, org, e, params, rec);
    }
    if Folded(env, e) {
      FoldedMeans(env, org, e, params, rec);
    }
    var b := Bound(env, e, params);
    if b.Ok? && Readable(b.value) {
      TreeReads(b.value);
    }
  }

  // ---------------------------------------------------------------- which rows a query selects

  /** The records for which the org finds a condition true. */
  function Answered(org: Org, node: S.Node, records: seq<Record>): seq<Record> {
    if records == [] then []
    else (if Eval(org, node, records[0]) then [records[0]] else []) + Answered(org, node, records[1..])
  }

  /** The records on which a SQL condition holds. */
  function Matching(env: Env, org: Org, e: Expr, params: seq<Lit>, records: seq<Record>): seq<Record> {
    if records == [] then []
    else
      (if Meaning(env, org, e, params, records[0]) then [records[0]] else []) +
      Matching(env, org, e, params, records[1..])
  }

  /** The records a row query returns before paging: none when the condition folded to false,
      all when it folded to true, otherwise the org's answer to the text that is sent. */
  function SelectedRows(env: Env, org: Org, where: Frag, params: seq<Lit>, records: seq<Record>): Result<seq<Record>> {
    match where
    case Const(v) => Ok(if v then records else [])
    case Text(parts) =>
      var text :- Fill(env, parts, params);
      match S.Read(text)
      case None => Err("42000")
      case Some(node) => Ok(Answered(org, node, records))
  }

  lemma {:induction false} AnsweredIn(org: Org, node: S.Node, records: seq<Record>, rec: Record)
    ensures rec in Answered(org, node, records) <==> rec in records && Eval(org, node, rec)
  {
    if records != [] {
      AnsweredIn(org, node, records[1..], rec);
    }
  }

  lemma {:induction false} MatchingIn(env: Env, org: Org, e: Expr, params: seq<Lit>, records: seq<Record>, rec: Record)
    ensures rec in Matching(env, org, e, params, records) <==> rec in records && Meaning(env, org, e, params, rec)
  {
    hide Meaning;
    if records != [] {
      MatchingIn(env, org, e, params, records[1..], rec);
    }
  }

  lemma {:induction false} ConstSelects(env: Env, org: Org, e: Expr, params: seq<Lit>, records: seq<Record>, v: bool)
    requires Lists(e) && Render(env, e) == Ok(Const(v))
    ensures Matching(env, org, e, params, records) == if v then records else []
    ensures forall i :: 0 <= i < |records| ==> Faithful(env, org, e, params, records[i])
  {
    hide Render, Meaning, SentMeaning, Exact;
    if records != [] {
      WhereMeaning(env, org, e, params, records[0]);
      ConstSelects(env, org, e, params, records[1..], v);
      assert records == [records[0]] + records[1..];
    }
  }

  predicate Answers(env: Env, org: Org, e: Expr, params: seq<Lit>, node: S.Node, rec: Record) {
    Eval(org, node, rec) == SentMeaning(env, org, e, params, rec)
  }

  lemma {:induction false} FaithfulMatches(env: Env, org: Org, e: Expr, params: seq<Lit>, records: seq<Record>,
                                           node: S.Node)
    requires forall i :: 0 <= i < |records| ==> Answers(env, org, e, params, node, records[i])
    requires forall i :: 0 <= i < |records| ==> Faithful(env, org, e, params, records[i])
    ensures Matching(env, org, e, params, records) == Answered(org, node, records)
  {
    hide Meaning, SentMeaning, Eval;
    if records != [] {
      assert Answers(env, org, e, params, node, records[0]) && Faithful(env, org, e, params, records[0]);
      FaithfulMatches(env, org, e, params, records[1..], node);
    }
  }

  lemma MatchesFaithful(env: Env, org: Org, e: Expr, params: seq<Lit>, records: seq<Record>, node: S.Node, i: nat)
    requires i < |records| && Answers(env, org, e, params, node, records[i])
    requires Matching(env, org, e, params, records) == Answered(org, node, records)
    ensures Faithful(env, org, e, params, records[i])
  {
    hide Meaning, SentMeaning, Eval;
    AnsweredIn(org, node, records, records[i]);
    MatchingIn(env, org, e, params, records, records[i]);
  }

  lemma TextSelects(env: Env, org: Org, e: Expr, params: seq<Lit>, records: seq<Record>, node: S.Node)
    requires forall i :: 0 <= i < |records| ==> Answers(env, org, e, params, node, records[i])
    ensures Matching(env, org, e, params, records) == Answered(org, node, records) <==>
            forall i :: 0 <= i < |records| ==> Faithful(env, org, e, params, records[i])
  {
    hide Answers, Faithful, Matching, Answered;
    if forall i :: 0 <= i < |records| ==> Faithful(env, org, e, params, records[i]) {
      FaithfulMatches(env, org, e, params, records, node);
    } else if Matching(env, org, e, params, records) == Answered(org, node, records) {
      var i :| 0 <= i < |records| && !Faithful(env, org, e, params, records[i]);
      MatchesFaithful(env, org, e, params, records, node, i);
    }
  }

  /** Nothing stands in the way of the answer: the condition is a constant, or what is sent is
      spelled in the org's grammar. */
  predicate Answerable(env: Env, e: Expr, params: seq<Lit>) {
    Render(env, e).Ok? &&
    (Render(env, e).value.Text? ==> Bound(env, e, params).Ok? && Readable(Bound(env, e, params).value))
  }

  /** A query that is sent, or decided without sending, selects exactly the records on which its
      WHERE condition holds, in their order, if the condition meets the guard; and in any case
      when and only when the org is asked about none of the records something else than the
      condition says. */
  lemma QuerySelects(env: Env, org: Org, e: Expr, params: seq<Lit>, records: seq<Record>)
    requires Lists(e) && Answerable(env, e, params)
    ensures var rows := SelectedRows(env, org, Render(env, e).value, params, records);
            var matching := Matching(env, org, e, params, records);
            rows.Ok? && (Exact(env, e, params) ==> rows.value == matching) &&
            (rows.value == matching <==> forall i :: 0 <= i < |records| ==> Faithful(env, org, e, params, records[i]))
  {
    hide Render, Meaning, SentMeaning, Fill, Bound, Readable, S.Read, Eval, Exact, Matching, Answered;
    var f := Render(env, e).value;
    forall i | 0 <= i < |records| && Exact(env, e, params) ensures Faithful(env, org, e, params, records[i]) {
      WhereMeaning(env, org, e, params, records[i]);
    }
    if f.Const? {
      ConstSelects(env, org, e, params, records, f.value);
    } else {
      WhereMeaning(env, org, e, params, Record(_ => Missing));
      var node := S.Read(Fill(env, f.parts, params).value).value;
      forall i | 0 <= i < |records| ensures Answers(env, org, e, params, node, records[i]) {
        WhereMeaning(env, org, e, params, records[i]);
      }
      TextSelects(env, org, e, params, records, node);
    }
  }

  // ---------------------------------------------------------------- where the meaning is not kept

  /** A NULL bound under `<`, `<=`, `>` or `>=` is sent as such, and the org then answers "has a
      value": the comparison keeps its meaning exactly on the records whose field is missing. */
  lemma NullOrderingParameter(env: Env, org: Org, path: seq<string>, op: S.CmpOp, rec: Record)
    requires env.resolve(path).Ok? && FieldName(env.resolve(path).value.soql)
    requires op != S.Eq && op != S.Ne
    ensures var e, f := Compare(op, Column(path), Param(0)), env.resolve(path).value.soql;
            var text := f + " " + S.OpText(op) + " null";
            Render(env, e).Ok? && Render(env, e).value.Text? &&
            Fill(env, Render(env, e).value.parts, [NULL]) == Ok(text) &&
            S.Read(text).Some? && !Meaning(env, org, e, [NULL], rec) &&
            (Eval(org, S.Read(text).value, rec) == Meaning(env, org, e, [NULL], rec) <==> rec.at(f).Missing?)
  {
    var col := env.resolve(path).value;
    var e := Compare(op, Column(path), Param(0));
    var tree := S.Compare(col.soql, op, S.Null);
    NullText(col, op);
    hide S.Read, S.TreeText, FieldName, S.OpText;
    RenderAgrees(env, e, [NULL]);
    assert Bind(env, S.Compare(col.soql, op, Slot(ParamSlot(0, col))), [NULL]) == Ok(tree);
    assert Readable(tree);
    TreeReads(tree);
  }

  /** A literal NULL there is folded to false instead, which is its meaning. */
  lemma NullOrderingLiteral(env: Env, org: Org, path: seq<string>, op: S.CmpOp, rec: Record)
    requires env.resolve(path).Ok? && op != S.Eq && op != S.Ne
    ensures var e := Compare(op, Column(path), Literal(NULL));
            Render(env, e) == Ok(Const(false)) && !Meaning(env, org, e, [], rec)
  {
  }

  /** NULL after LIKE, written or bound, is sent as such and read as a pattern: the test keeps its
      meaning exactly on the records whose value does not match the word. */
  lemma NullPattern(env: Env, org: Org, path: seq<string>, o: Operand, params: seq<Lit>, rec: Record)
    requires env.resolve(path).Ok? && FieldName(env.resolve(path).value.soql)
    requires o.Literal? || (o.Param? && o.index < |params|)
    requires LitOf(o, params).kind == NullLit
    ensures var e, f := Like(Column(path), o, false), env.resolve(path).value.soql;
            var text := f + " LIKE null";
            Render(env, e).Ok? && Render(env, e).value.Text? &&
            Fill(env, Render(env, e).value.parts, params) == Ok(text) &&
            S.Read(text).Some? && !Meaning(env, org, e, params, rec) &&
            (Eval(org, S.Read(text).value, rec) == Meaning(env, org, e, params, rec) <==>
             !(rec.at(f).Words? && org.like("null", rec.at(f).s)))
  {
    var col := env.resolve(path).value;
    var e := Like(Column(path), o, false);
    var tree := S.Like(col.soql, S.Null);
    NullPatternText(col.soql);
    NullOperand(env, o, col, params);
    hide S.Read, S.TreeText, FieldName, PieceOf, BindPiece, LitOf;
    RenderAgrees(env, e, params);
    assert Bind(env, S.Like(col.soql, PieceOf(env, o, col).value), params) == Ok(tree);
    assert Readable(tree);
    TreeReads(tree);
  }

  lemma NullPatternText(f: string)
    ensures S.TreeText(S.Like(f, S.Null)) == f + " LIKE null"
  {
    assert S.Mid("LIKE") + "null" == " LIKE null";
  }

  lemma NullOperand(env: Env, o: Operand, col: Field, params: seq<Lit>)
    requires o.Literal? || (o.Param? && o.index < |params|)
    requires LitOf(o, params).kind == NullLit
    ensures PieceOf(env, o, col).Ok? && BindPiece(env, PieceOf(env, o, col).value, params) == Ok(S.Null)
  {
  }

  function Instant(p: DateTime.Parts, millis: int): Val {
    MomentVal(p.year, p.month, p.day, p.hour, p.minute, p.second, millis)
  }

  lemma DatetimeLiteral(env: Env, org: Org, lit: Lit, p: DateTime.Parts)
    requires lit.kind == TimestampLit && DateTime.Parse(lit.text) == Some(p) && p.hasDate
    ensures SoqlValue(env, lit, "datetime") == Ok(S.Moment(MomentText(p)))
    ensures LitVal(org, lit, "datetime") == Instant(p, p.millis)
  {
    hide MomentText, DateTime.Parse, ToLower, Trim, DateTime.FormatDate, ClockText;
  }

  lemma SameMoment(p: DateTime.Parts)
    ensures MomentText(p.(hasDate := true, hasTime := true)) == MomentText(p)
  {
    hide DateTime.Pad, Segmented;
  }

  lemma TimestampLiteral(env: Env, org: Org, p: DateTime.Parts)
    requires DateTime.DateInRange(p) && DateTime.ClockInRange(p) && 0 <= p.year <= 9999
    ensures var lit := Lit(TimestampLit, DateTime.FormatTimestamp(p));
            SoqlValue(env, lit, "datetime") == Ok(S.Moment(MomentText(p))) &&
            LitVal(org, lit, "datetime") == Instant(p, p.millis)
  {
    hide MomentText, DateTime.FormatTimestamp, DateTime.Parse, SoqlValue, LitVal;
    DateTime.PrintedTimestampReads(p);
    DatetimeLiteral(env, org, Lit(TimestampLit, DateTime.FormatTimestamp(p)), p.(hasDate := true, hasTime := true));
    SameMoment(p);
  }

  lemma MomentSentAs(env: Env, e: Expr, f: string, p: DateTime.Parts)
    requires Compile(env, e) == Ok(Condition(S.Compare(f, S.Eq, Known(S.Moment(MomentText(p))))))
    requires FieldName(f) && Lists(e)
    requires DateTime.DateInRange(p) && DateTime.ClockInRange(p) && 0 <= p.year <= 9999
    ensures var text := f + " = " + MomentText(p);
            Render(env, e).Ok? && Render(env, e).value.Text? && Fill(env, Render(env, e).value.parts, []) == Ok(text) &&
            S.Read(text) == Some(S.CmpNode(f, S.Eq, S.Moment(MomentText(p))))
  {
    DateReadable(p);
    hide S.Read, S.TreeText, FieldName, MomentText, Render, Compile, ReadableValue;
    var tree := S.Compare(f, S.Eq, S.Moment(MomentText(p)));
    EqualsText(f, MomentText(p));
    RenderAgrees(env, e, []);
    assert Bind(env, S.Compare(f, S.Eq, Known(S.Moment(MomentText(p)))), []) == Ok(tree);
    TreeReads(tree);
  }

  lemma MomentAsked(org: Org, f: string, p: DateTime.Parts, rec: Record)
    requires DateTime.DateInRange(p) && DateTime.ClockInRange(p) && 0 <= p.year <= 9999
    ensures Eval(org, S.CmpNode(f, S.Eq, S.Moment(MomentText(p))), rec) <==> rec.at(f) == Instant(p, 0)
  {
    MomentReads(org, p);
    hide MomentText, Denote, ToLower;
  }

  lemma LiteralCompiles(env: Env, path: seq<string>, lit: Lit, v: S.Value)
    requires env.resolve(path).Ok? && SoqlValue(env, lit, env.resolve(path).value.sfType) == Ok(v)
    ensures Compile(env, Compare(S.Eq, Column(path), Literal(lit))) ==
            Ok(Condition(S.Compare(env.resolve(path).value.soql, S.Eq, Known(v))))
  {
    hide SoqlValue;
  }

  lemma EqualsMeans(env: Env, org: Org, path: seq<string>, lit: Lit, rec: Record)
    requires env.resolve(path).Ok? && LitVal(org, lit, env.resolve(path).value.sfType).MomentVal?
    ensures Meaning(env, org, Compare(S.Eq, Column(path), Literal(lit)), [], rec) <==>
            rec.at(env.resolve(path).value.soql) == LitVal(org, lit, env.resolve(path).value.sfType)
  {
    hide LitVal;
  }

  /** A datetime column compared with a timestamp is sent without its milliseconds: where there
      are some, the records of the whole second are selected in place of those of the instant. */
  lemma MillisecondsLost(env: Env, org: Org, path: seq<string>, p: DateTime.Parts, rec: Record)
    requires env.resolve(path).Ok? && FieldName(env.resolve(path).value.soql)
    requires env.resolve(path).value.sfType == "datetime"
    requires DateTime.DateInRange(p) && DateTime.ClockInRange(p) && 0 <= p.year <= 9999
    ensures var e := Compare(S.Eq, Column(path), Literal(Lit(TimestampLit, DateTime.FormatTimestamp(p))));
            var f := env.resolve(path).value.soql;
            var text := f + " = " + MomentText(p);
            Render(env, e).Ok? && Render(env, e).value.Text? && Fill(env, Render(env, e).value.parts, []) == Ok(text) &&
            S.Read(text).Some? &&
            (Eval(org, S.Read(text).value, rec) <==> rec.at(f) == Instant(p, 0)) &&
            (Meaning(env, org, e, [], rec) <==> rec.at(f) == Instant(p, p.millis))
  {
    var col := env.resolve(path).value;
    var lit := Lit(TimestampLit, DateTime.FormatTimestamp(p));
    var e := Compare(S.Eq, Column(path), Literal(lit));
    hide S.Read, Render, Compile, Meaning, FieldName, MomentText, DateTime.FormatTimestamp, Eval, SoqlValue, LitVal;
    TimestampLiteral(env, org, p);
    LiteralCompiles(env, path, lit, S.Moment(MomentText(p)));
    EqualsMeans(env, org, path, lit, rec);
    MomentSentAs(env, e, col.soql, p);
    MomentAsked(org, col.soql, p, rec);
  }

  lemma EqualsText(f: string, t: string)
    ensures S.TreeText(S.Compare(f, S.Eq, S.Moment(t))) == f + " = " + t
  {
    assert S.Mid("=") == " = ";
  }

  /** A number is one token for the org exactly when it is written -?digits[.digits]. */
  lemma NumberTokens(t: string)
    requires t != ""
    ensures NumberForm(t) <==> S.Lex(t) == Some((S.NumTok, |t|))
  {
    if NumberForm(t) {
      NumberLexes(t, "");
      assert t + "" == t;
    }
  }

  /** The driver sends any spelling its C library reads; a number with an exponent is no number
      for the org but falls apart into a number and a word. */
  lemma ExponentSplits(a: string, e: char, d: string)
    requires NumberForm(a) && (e == 'e' || e == 'E') && d != "" && AllDigits(d)
    ensures !NumberForm(a + ([e] + d))
    ensures S.Tokenize(a + ([e] + d)) == Some([S.Token(S.NumTok, a), S.Token(S.IdentTok, [e] + d)])
  {
    var w := [e] + d;
    NumberLexes(a, w);
    NumberKept(a, w);
    TokenStep(a, S.NumTok, w);
    assert Word(w);
    hide S.Tokenize;
    WordStep(w, "");
    assert w + "" == w;
    EmptyTokens();
    var one, word := S.Token(S.NumTok, a), S.Token(S.IdentTok, w);
    assert [word] + [] == [word];
    assert [one] + [word] == [one, word];
  }

  lemma EmptyTokens()
    ensures S.Tokenize("") == Some([])
  {
  }
}
