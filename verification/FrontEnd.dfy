/** From the SQL text of a WHERE condition to the rows it selects, through the tokenizer, the
    parser, the compiler and the org's reader (src/sql_parser.cpp, src/sql_plan.cpp,
    tests/mock_salesforce.py). */
module FrontEnd {
  import opened Wrappers
  import opened Sql
  import opened SqlPlan
  import opened SqlMeaning
  import opened SqlProof
  import opened SoqlReading
  import opened Compiler
  import opened Fidelity
  import opened Parameters
  import opened ParsedTree
  import opened ParameterTable
  import opened Spelling
  import opened SqlTokenizer
  import opened SqlParser
  import P = SqlPrinter
  import S = Soql

  // ---------------------------------------------------------------- any text

  /** Whatever text is given, a condition that is read has non-empty lists and parameters numbered
      from zero in the order of their marks. */
  lemma TextShaped(s: string)
    requires ParseText(s).Ok?
    ensures Shaped(ParseText(s).value.0, 0, ParseText(s).value.1)
  {
    hide Tokenize, Shaped;
    TokensTerminated(s);
    OrShaped(Tokenize(s).value, 0);
  }

  /** Whatever text is given: if a condition is read from it, the query selects exactly the records
      on which that condition holds when it meets the guard, and in any case when and only when
      the org is asked about each record what the condition says. */
  lemma TextQuerySelects(env: Env, org: Org, s: string, params: seq<Lit>, records: seq<Record>)
    requires ParseText(s).Ok? && Answerable(env, ParseText(s).value.0, params)
    ensures var e := ParseText(s).value.0;
            var rows := SelectedRows(env, org, Render(env, e).value, params, records);
            var matching := Matching(env, org, e, params, records);
            rows.Ok? && (Exact(env, e, params) ==> rows.value == matching) &&
            (rows.value == matching <==> forall i :: 0 <= i < |records| ==> Faithful(env, org, e, params, records[i]))
  {
    hide ParseText, Render, SelectedRows, Matching, Faithful, Exact, Answerable;
    TextShaped(s);
    QuerySelects(env, org, ParseText(s).value.0, params, records);
  }

  /** Whatever text is given, the parameter table describes every hole of its template exactly when
      every `? BETWEEN lo AND hi` that is sent has columns that resolve alike. */
  lemma TextTableDescribes(env: Env, s: string)
    requires ParseText(s).Ok? && Render(env, ParseText(s).value.0).Ok?
    ensures var e := ParseText(s).value.0; AllDescribed(env, e) <==> BoundsAgree(env, e)
  {
    hide ParseText, Render, AllDescribed, BoundsAgree, OneColumnEach;
    TextShaped(s);
    TableDescribes(env, ParseText(s).value.0, 0);
  }

  // ---------------------------------------------------------------- every layout

  /** A condition as it is written: blanks and comments first, then its tokens, each keyword in the
      case it has and names plain or in double quotes, each followed by a blank and what else may
      stand between tokens. */
  function Written(c: P.Cond, lead: seq<Filler>, gaps: seq<seq<Filler>>): string
    requires P.Writable(c) && P.Lists(c) && |gaps| == |P.Print(c)|
  {
    GapFront(lead, Spell(P.Print(c), gaps))
  }

  predicate Layout(c: P.Cond, lead: seq<Filler>, gaps: seq<seq<Filler>>) {
    P.Writable(c) && P.Lists(c) && CondText(c) && |gaps| == |P.Print(c)| && Gaps(gaps) &&
    forall i :: 0 <= i < |lead| ==> Fills(lead[i])
  }

  /** A condition is read from its text whatever its layout. */
  lemma TextParses(c: P.Cond, lead: seq<Filler>, gaps: seq<seq<Filler>>)
    requires Layout(c, lead, gaps)
    ensures ParseText(Written(c, lead, gaps)) == Ok(P.Desugar(c, 0))
  {
    hide Tokenize, Spell, GapFront, P.Desugar, P.Print, ParseOr, P.Writable, P.Lists, Spellable, Fills, Gaps, CondText;
    PrintSpellable(c);
    SpellingReads(P.Print(c), gaps);
    GapSkipped(lead, Spell(P.Print(c), gaps));
    StatementParses(c);
  }

  /** A condition so written selects exactly the records on which it holds: the text is tokenized,
      parsed, compiled, filled with the bound values, read by the org and evaluated. */
  lemma WrittenConditionSelects(env: Env, org: Org, c: P.Cond, lead: seq<Filler>, gaps: seq<seq<Filler>>,
                                params: seq<Lit>, records: seq<Record>)
    requires Layout(c, lead, gaps)
    requires var e := P.Desugar(c, 0).0; Answerable(env, e, params) && Exact(env, e, params)
    ensures var parsed := ParseText(Written(c, lead, gaps));
            parsed.Ok? && Render(env, parsed.value.0).Ok? &&
            SelectedRows(env, org, Render(env, parsed.value.0).value, params, records) ==
            Ok(Matching(env, org, P.Desugar(c, 0).0, params, records))
  {
    hide ParseText, Render, SelectedRows, Matching, Exact, P.Desugar, P.Writable, Written, P.Print, CondText;
    hide Bound, SoqlReading.Readable, Faithful, Gaps, Fills;
    TextParses(c, lead, gaps);
    TextQuerySelects(env, org, Written(c, lead, gaps), params, records);
  }

  // ---------------------------------------------------------------- strings through every layer

  predicate TextType(t: string) {
    t != "int" && t != "long" && t != "double" && t != "currency" && t != "percent" &&
    t != "boolean" && t != "date" && t != "datetime" && t != "time"
  }

  /** `name = 'text'` */
  function Equals(name: string, text: string): P.Cond {
    P.CCompare(P.Path(P.Bare(name), []), S.Eq, false, P.Value(P.Text(text)))
  }

  lemma EqualsWritten(name: string, text: string)
    requires NameText(name) && P.LeadTerm(P.Path(P.Bare(name), []))
    ensures var c := Equals(name, text);
            Layout(c, [], [[], [], []]) &&
            Written(c, [], [[], [], []]) == name + (" " + ("=" + (" " + (['\''] + QuotedFront(text, '\'', " ")))))
  {
    hide NameText, QuotedFront, P.Plain;
    var ts := [Token(Ident, name), Token(Op, "="), Token(String, text)];
    EqualsTokens(name, text);
    ThreeTokens(ts[0], ts[1], ts[2]);
    var w := ['\''] + QuotedFront(text, '\'', " ");
    assert " " + "" == " ";
    assert SpellFront(ts[2], "") == w;
    assert SpellFront(ts[1], w) == "=" + (" " + w);
  }

  lemma ThreeTokens(a: Token, b: Token, c: Token)
    ensures Spell([a, b, c], [[], [], []]) == SpellFront(a, SpellFront(b, SpellFront(c, "")))
  {
    hide SpellFront;
    var gaps: seq<seq<Filler>> := [[], [], []];
    assert [a, b, c][1..] == [b, c] && [b, c][1..] == [c] && [c][1..] == [];
    assert gaps[1..] == [[], []] && gaps[1..][1..] == [[]];
    assert GapFront([], "") == "";
    assert Spell([], []) == "";
    assert Spell([c], [[]]) == SpellFront(c, "");
    assert Spell([b, c], [[], []]) == SpellFront(b, SpellFront(c, ""));
  }

  lemma EqualsTokens(name: string, text: string)
    ensures P.Print(Equals(name, text)) == [Token(Ident, name), Token(Op, "="), Token(String, text)]
  {
    assert P.PathFront([], [P.Sym("=")] + [Token(String, text)]) == [P.Sym("="), Token(String, text)];
  }

  lemma EqualsCompiles(env: Env, name: string, text: string)
    requires env.resolve([name]).Ok? && TextType(env.resolve([name]).value.sfType)
    ensures Compile(env, Compare(S.Eq, Column([name]), Literal(Lit(StringLit, text)))) ==
            Ok(Condition(S.Compare(env.resolve([name]).value.soql, S.Eq, Known(S.Str(text)))))
  {
  }

  lemma EqualsReadable(f: string, text: string)
    requires FieldName(f)
    ensures var tree := S.Compare(f, S.Eq, S.Str(text));
            Readable(tree) && NodeOf(tree) == S.CmpNode(f, S.Eq, S.Str(text))
  {
  }

  /** The string as an inline literal, from the parsed comparison to what the org reads. */
  lemma LiteralArrives(env: Env, name: string, text: string)
    requires env.resolve([name]).Ok? && TextType(env.resolve([name]).value.sfType)
    requires FieldName(env.resolve([name]).value.soql)
    ensures var frag := Render(env, Compare(S.Eq, Column([name]), Literal(Lit(StringLit, text))));
            frag.Ok? && frag.value.Text? && Fill(env, frag.value.parts, []).Ok? &&
            S.Read(Fill(env, frag.value.parts, []).value) ==
            Some(S.CmpNode(env.resolve([name]).value.soql, S.Eq, S.Str(text)))
  {
    hide Fill, S.Read, S.TreeText, FieldName, Render, Compile, Readable, NodeOf;
    var f, e := env.resolve([name]).value.soql, Compare(S.Eq, Column([name]), Literal(Lit(StringLit, text)));
    var tree := S.Compare(f, S.Eq, S.Str(text));
    RenderAgrees(env, e, []);
    EqualsCompiles(env, name, text);
    assert Bind(env, S.Compare(f, S.Eq, Known(S.Str(text))), []) == Ok(tree);
    EqualsReadable(f, text);
    TreeReads(tree);
  }

  lemma EqualsStandsFor(name: string, text: string)
    ensures P.Desugar(Equals(name, text), 0) ==
            (Compare(S.Eq, Column([name]), Literal(Lit(StringLit, text))), 0)
  {
    assert [name] + [] == [name];
  }

  /** A string compared with a text column arrives unchanged, whatever characters it has: written
      in SQL with its quotes doubled, then in SOQL with its escapes, it is read by the org as the
      same string. */
  lemma StringSurvives(env: Env, name: string, text: string)
    requires NameText(name) && P.LeadTerm(P.Path(P.Bare(name), []))
    requires env.resolve([name]).Ok? && TextType(env.resolve([name]).value.sfType)
    requires FieldName(env.resolve([name]).value.soql)
    ensures var sql := name + (" " + ("=" + (" " + (['\''] + QuotedFront(text, '\'', " ")))));
            ParseText(sql).Ok? &&
            var frag := Render(env, ParseText(sql).value.0);
            frag.Ok? && frag.value.Text? && Fill(env, frag.value.parts, []).Ok? &&
            S.Read(Fill(env, frag.value.parts, []).value) ==
            Some(S.CmpNode(env.resolve([name]).value.soql, S.Eq, S.Str(text)))
  {
    var c, e := Equals(name, text), Compare(S.Eq, Column([name]), Literal(Lit(StringLit, text)));
    EqualsWritten(name, text);
    hide ParseText, Fill, S.Read, P.Print, Spell, QuotedFront, CondText, NameText, FieldName, Render, P.Desugar;
    hide P.Plain, P.Writable;
    EqualsStandsFor(name, text);
    TextParses(c, [], [[], [], []]);
    LiteralArrives(env, name, text);
  }
}
