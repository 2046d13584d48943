/** Proofs that the template is the compiled condition and that compiling keeps the meaning. */
module SqlProof {
  import opened Wrappers
  import opened Text
  import opened Sql
  import opened SqlPlan
  import opened SqlMeaning
  import opened Literals
  import opened SoqlReading
  import DateTime
  import S = Soql

  // ---------------------------------------------------------------- the template spells the condition

  function TextOf(t: Result<S.Tree<S.Value>>): Result<string>
    requires t.Ok? ==> S.Listed(t.value)
  {
    match t
    case Ok(tree) => Ok(S.TreeText(tree))
    case Err(e) => Err(e)
  }

  /** A rendered fragment and a compiled condition say the same, errors included. */
  predicate Agrees(env: Env, frag: Result<Frag>, c: Result<Compiled>, params: seq<Lit>) {
    match frag
    case Err(e) => c == Err(e)
    case Ok(Const(v)) => c == Ok(Decided(v))
    case Ok(Text(parts)) =>
      c.Ok? && c.value.Condition? && S.Listed(c.value.tree) &&
      Fill(env, parts, params) == TextOf(Bind(env, c.value.tree, params))
  }

  function Concat(a: Result<string>, b: Result<string>): Result<string> {
    match a
    case Err(e) => Err(e)
    case Ok(s) => match b case Err(e) => Err(e) case Ok(t) => Ok(s + t)
  }

  lemma FillConcat(env: Env, a: seq<Part>, b: seq<Part>, params: seq<Lit>)
    ensures Fill(env, a + b, params) == Concat(Fill(env, a, params), Fill(env, b, params))
  {
    FillBoth(env, a, b, params);
  }

  lemma FillChars(env: Env, s: string, params: seq<Lit>)
    ensures Fill(env, [Chars(s)], params) == Ok(s)
  {
    FillOne(env, Chars(s), params);
  }

  lemma ConcatAssoc(a: Result<string>, b: Result<string>, c: Result<string>)
    ensures Concat(Concat(a, b), c) == Concat(a, Concat(b, c))
  {
    if a.Ok? && b.Ok? && c.Ok? {
      assert (a.value + b.value) + c.value == a.value + (b.value + c.value);
    }
  }

  /** Text before and after a fragment. */
  lemma FillAround(env: Env, before: string, parts: seq<Part>, after: string, params: seq<Lit>)
    ensures Fill(env, [Chars(before)] + parts + [Chars(after)], params) ==
            Concat(Ok(before), Concat(Fill(env, parts, params), Ok(after)))
  {
    hide Fill;
    FillConcat(env, [Chars(before)] + parts, [Chars(after)], params);
    FillConcat(env, [Chars(before)], parts, params);
    FillChars(env, before, params);
    FillChars(env, after, params);
    ConcatAssoc(Ok(before), Fill(env, parts, params), Ok(after));
  }

  /** Text before one operand. */
  lemma FillOperand(env: Env, before: string, v: Part, params: seq<Lit>)
    ensures Fill(env, [Chars(before), v], params) == Concat(Ok(before), PartText(env, v, params))
  {
    assert [Chars(before), v] == [Chars(before)] + [v];
    FillConcat(env, [Chars(before)], [v], params);
    FillChars(env, before, params);
    FillOne(env, v, params);
  }

  function ValueTextOf(v: Result<S.Value>): Result<string> {
    match v
    case Ok(x) => Ok(S.ValueText(x))
    case Err(e) => Err(e)
  }

  lemma OperandAgrees(env: Env, o: Operand, col: Field, params: seq<Lit>)
    ensures match ValuePart(env, o, col)
            case Err(e) => PieceOf(env, o, col) == Err(e)
            case Ok(part) => PieceOf(env, o, col).Ok? &&
                             PartText(env, part, params) ==
                             ValueTextOf(BindPiece(env, PieceOf(env, o, col).value, params))
  {
  }

  lemma {:induction false} ListAgrees(env: Env, list: seq<Operand>, col: Field, params: seq<Lit>)
    ensures match ValueParts(env, list, col)
            case Err(e) => PiecesOf(env, list, col) == Err(e)
            case Ok(parts) =>
              PiecesOf(env, list, col).Ok? && |PiecesOf(env, list, col).value| == |list| &&
              (list == [] <==> parts == []) &&
              (list != [] ==>
                 Fill(env, parts, params) ==
                 match BindPieces(env, PiecesOf(env, list, col).value, params)
                 case Ok(vs) => Ok(S.ListText(vs))
                 case Err(e) => Err(e))
  {
    if list != [] {
      hide PartText, ValuePart, PieceOf, BindPiece, S.ValueText;
      OperandAgrees(env, list[0], col, params);
      ListAgrees(env, list[1..], col, params);
      if ValuePart(env, list[0], col).Ok? && ValueParts(env, list[1..], col).Ok? {
        var p, ps := ValuePart(env, list[0], col).value, ValueParts(env, list[1..], col).value;
        FillOne(env, p, params);
        if list[1..] == [] {
          assert [p] + [] == [p];
        } else {
          FillConcat(env, [p], [Chars(",")] + ps, params);
          FillConcat(env, [Chars(",")], ps, params);
          FillChars(env, ",", params);
        }
      }
    }
  }

  lemma CompareAgrees(env: Env, op0: S.CmpOp, a0: Operand, b0: Operand, params: seq<Lit>)
    ensures Agrees(env, RenderCompare(env, op0, a0, b0), CompileCompare(env, op0, a0, b0), params)
  {
    hide PartText, ValuePart, PieceOf, S.OpText, S.ValueText, FoldCompare;
    var swap := !a0.Column? && b0.Column?;
    var a, b, op := if swap then b0 else a0, if swap then a0 else b0, if swap then Flip(op0) else op0;
    if a.Column? && env.resolve(a.path).Ok? {
      var col := env.resolve(a.path).value;
      OperandAgrees(env, b, col, params);
      if b.Literal? && b.lit.kind == NullLit {
        NullText(col, op);
        FillChars(env, col.soql + " " + S.OpText(op) + " null", params);
        NullPiece(env, b, col);
      } else if ValuePart(env, b, col).Ok? {
        var part := ValuePart(env, b, col).value;
        FillOperand(env, col.soql + " " + S.OpText(op) + " ", part, params);
        var v := BindPiece(env, PieceOf(env, b, col).value, params);
        if v.Ok? {
          MidText(col.soql, S.OpText(op), S.ValueText(v.value));
        }
      }
    }
  }

  lemma NullPiece(env: Env, o: Operand, col: Field)
    requires o.Literal? && o.lit.kind == NullLit
    ensures PieceOf(env, o, col) == Ok(Known(S.Null))
  {
  }

  lemma MidText(f: string, w: string, v: string)
    ensures f + " " + w + " " + v == f + (S.Mid(w) + v)
  {
  }

  lemma NullText(col: Field, op: S.CmpOp)
    ensures col.soql + " " + S.OpText(op) + " null" == S.TreeText(S.Compare(col.soql, op, S.Null))
  {
    assert S.ValueText(S.Null) == "null";
    MidText(col.soql, S.OpText(op), "null");
    assert col.soql + " " + S.OpText(op) + " null" == col.soql + " " + S.OpText(op) + " " + "null";
  }

  lemma IsNullAgrees(env: Env, a: Operand, negated: bool, params: seq<Lit>)
    ensures Agrees(env, Render(env, IsNull(a, negated)), Compile(env, IsNull(a, negated)), params)
  {
    if a.Column? && env.resolve(a.path).Ok? {
      var col := env.resolve(a.path).value;
      NullText(col, if negated then S.Ne else S.Eq);
      FillChars(env, col.soql + (if negated then " != null" else " = null"), params);
      assert col.soql + " " + "!=" + " null" == col.soql + " != null";
      assert col.soql + " " + "=" + " null" == col.soql + " = null";
    }
  }

  lemma LikeAgrees(env: Env, a: Operand, b: Operand, negated: bool, params: seq<Lit>)
    ensures Agrees(env, Render(env, Like(a, b, negated)), Compile(env, Like(a, b, negated)), params)
  {
    hide PartText, ValuePart, PieceOf, S.ValueText, BindPiece;
    if a.Column? && env.resolve(a.path).Ok? {
      var col := env.resolve(a.path).value;
      OperandAgrees(env, b, col, params);
      if ValuePart(env, b, col).Ok? {
        var part := ValuePart(env, b, col).value;
        var open := (if negated then "(NOT " else "") + col.soql + " LIKE ";
        FillOperand(env, open, part, params);
        FillConcat(env, [Chars(open), part], if negated then [Chars(")")] else [], params);
        FillChars(env, ")", params);
        var p := PieceOf(env, b, col).value;
        var v := BindPiece(env, p, params);
        var like := S.Like(col.soql, p);
        var tree: S.Tree<Piece> := if negated then S.Not(like) else like;
        var parts := [Chars(open), part] + (if negated then [Chars(")")] else []);
        assert Render(env, Like(a, b, negated)) == Ok(Text(parts));
        assert Compile(env, Like(a, b, negated)) == Ok(Condition(tree));
        assert S.Listed(tree);
        NotText(env, like, params);
        if v.Err? {
          assert Bind(env, like, params) == Err(v.state);
          assert Fill(env, parts, params) == Err(v.state);
          assert TextOf(Bind(env, tree, params)) == Err(v.state);
        } else {
          var text := col.soql + (S.Mid("LIKE") + S.ValueText(v.value));
          assert TextOf(Bind(env, like, params)) == Ok(text);
          LikeText(col.soql, S.ValueText(v.value));
          assert negated ==> open + S.ValueText(v.value) + ")" == "(NOT " + (text + ")");
          assert !negated ==> open + S.ValueText(v.value) + "" == text;
        }
      }
    }
  }

  lemma LikeText(f: string, v: string)
    ensures "" + f + " LIKE " + v == f + (S.Mid("LIKE") + v)
    ensures "(NOT " + f + " LIKE " + v + ")" == "(NOT " + ((f + (S.Mid("LIKE") + v)) + ")")
  {
    assert S.Mid("LIKE") == " LIKE ";
  }

  lemma InAgrees(env: Env, a: Operand, list: seq<Operand>, negated: bool, params: seq<Lit>)
    requires list != []
    ensures Agrees(env, Render(env, In(a, list, negated)), Compile(env, In(a, list, negated)), params)
  {
    hide ValueParts, PiecesOf, BindPieces, S.ListText;
    if a.Column? && env.resolve(a.path).Ok? {
      var col := env.resolve(a.path).value;
      ListAgrees(env, list, col, params);
      if ValueParts(env, list, col).Ok? {
        var parts := ValueParts(env, list, col).value;
        FillAround(env, col.soql + (if negated then " NOT IN (" else " IN ("), parts, ")", params);
        var vs := BindPieces(env, PiecesOf(env, list, col).value, params);
        if vs.Ok? {
          InText(col.soql, S.ListText(vs.value));
        }
      }
    }
  }

  lemma InText(f: string, list: string)
    ensures (f + " IN (") + (list + ")") == f + (S.Mid("IN") + ("(" + (list + ")")))
    ensures (f + " NOT IN (") + (list + ")") == f + (" NOT" + (S.Mid("IN") + ("(" + (list + ")"))))
  {
    assert S.Mid("IN") + "(" == " IN (";
    assert " NOT" + (S.Mid("IN") + "(") == " NOT IN (";
  }

  lemma JoinText(env: Env, isAnd: bool, x: S.Tree<Piece>, y: S.Tree<Piece>, params: seq<Lit>)
    requires S.Listed(x) && S.Listed(y)
    ensures TextOf(Bind(env, if isAnd then S.And(x, y) else S.Or(x, y), params)) ==
            Concat(Ok("("), Concat(TextOf(Bind(env, x, params)),
                   Concat(Ok(S.Mid(if isAnd then "AND" else "OR")), Concat(TextOf(Bind(env, y, params)), Ok(")")))))
  {
  }

  lemma NotText(env: Env, x: S.Tree<Piece>, params: seq<Lit>)
    requires S.Listed(x)
    ensures TextOf(Bind(env, S.Not(x), params)) ==
            Concat(Ok("(NOT "), Concat(TextOf(Bind(env, x, params)), Ok(")")))
  {
    var t := Bind(env, x, params);
    if t.Ok? {
      var s := S.TreeText(t.value);
      assert "(NOT " + (s + ")") == "(" + ("NOT " + (s + ")"));
    }
  }

  lemma JoinFills(env: Env, mid: string, l: seq<Part>, r: seq<Part>, params: seq<Lit>)
    ensures Fill(env, [Chars("(")] + l + [Chars(mid)] + r + [Chars(")")], params) ==
            Concat(Ok("("), Concat(Fill(env, l, params), Concat(Ok(mid), Concat(Fill(env, r, params), Ok(")")))))
  {
    hide Fill, Concat;
    var after := [Chars(mid)] + r;
    FillConcat(env, [Chars(mid)], r, params);
    FillChars(env, mid, params);
    FillConcat(env, l, after, params);
    FillAround(env, "(", l + after, ")", params);
    assert [Chars("(")] + l + [Chars(mid)] + r + [Chars(")")] == [Chars("(")] + (l + after) + [Chars(")")];
    var s, t := Fill(env, l, params), Fill(env, r, params);
    ConcatAssoc(s, Concat(Ok(mid), t), Ok(")"));
    ConcatAssoc(Ok(mid), t, Ok(")"));
  }

  lemma JoinAgrees(env: Env, isAnd: bool, l: Frag, r: Frag, x: Compiled, y: Compiled, params: seq<Lit>)
    requires Agrees(env, Ok(l), Ok(x), params) && Agrees(env, Ok(r), Ok(y), params)
    ensures Agrees(env, Ok(Join(isAnd, l, r)), Ok(CompileJoin(isAnd, x, y)), params)
  {
    hide Fill, Bind, TextOf, Concat;
    if l.Text? && r.Text? {
      var mid := if isAnd then " AND " else " OR ";
      assert mid == S.Mid(if isAnd then "AND" else "OR");
      JoinFills(env, mid, l.parts, r.parts, params);
      JoinText(env, isAnd, x.tree, y.tree, params);
    }
  }

  lemma NotAgrees(env: Env, f: Frag, x: Compiled, params: seq<Lit>)
    requires f.Text? && Agrees(env, Ok(f), Ok(x), params)
    ensures Agrees(env, Ok(Text([Chars("(NOT ")] + f.parts + [Chars(")")])), Ok(Condition(S.Not(x.tree))), params)
  {
    hide Fill, Bind, TextOf, Concat;
    FillAround(env, "(NOT ", f.parts, ")", params);
    NotText(env, x.tree, params);
  }

  /** The template, filled with any parameters, is the spelling of the compiled condition bound to
      them, or fails as binding it fails. */
  lemma {:induction false} RenderAgrees(env: Env, e: Expr, params: seq<Lit>)
    requires Lists(e)
    ensures Agrees(env, Render(env, e), Compile(env, e), params)
  {
    hide Agrees, RenderCompare, CompileCompare, Join, CompileJoin;
    match e
    case And(l, r) =>
      RenderAgrees(env, l, params);
      RenderAgrees(env, r, params);
      BothAgree(env, true, l, r, params);
    case Or(l, r) =>
      RenderAgrees(env, l, params);
      RenderAgrees(env, r, params);
      BothAgree(env, false, l, r, params);
    case Not(a) =>
      RenderAgrees(env, a, params);
      NegationAgrees(env, a, params);
    case Compare(op, a, b) => CompareAgrees(env, op, a, b, params);
    case IsNull(a, negated) => IsNullAgrees(env, a, negated, params);
    case Like(a, b, negated) => LikeAgrees(env, a, b, negated, params);
    case In(a, list, negated) => InAgrees(env, a, list, negated, params);
  }

  lemma BothAgree(env: Env, isAnd: bool, l: Expr, r: Expr, params: seq<Lit>)
    requires Agrees(env, Render(env, l), Compile(env, l), params)
    requires Agrees(env, Render(env, r), Compile(env, r), params)
    ensures var e := if isAnd then And(l, r) else Or(l, r);
            Agrees(env, Render(env, e), Compile(env, e), params)
  {
    if Render(env, l).Ok? && Render(env, r).Ok? {
      JoinAgrees(env, isAnd, Render(env, l).value, Render(env, r).value,
                 Compile(env, l).value, Compile(env, r).value, params);
    }
  }

  lemma NegationAgrees(env: Env, a: Expr, params: seq<Lit>)
    requires Agrees(env, Render(env, a), Compile(env, a), params)
    ensures Agrees(env, Render(env, Not(a)), Compile(env, Not(a)), params)
  {
    if Render(env, a).Ok? && Render(env, a).value.Text? {
      NotAgrees(env, Render(env, a).value, Compile(env, a).value, params);
    }
  }

  // ---------------------------------------------------------------- literals keep their value

  lemma NatReads(t: string, i: nat, n: nat, width: nat)
    requires n < Pow10(width) && i + width <= |t| && t[i..i + width] == Digits(n, width)
    ensures S.DigitsAt(t, i, width) && NatAt(t, i, width) == n
  {
    DigitsValue(n, width);
  }

  lemma DayReads(p: DateTime.Parts, t: string)
    requires DateTime.DateInRange(p) && 0 <= p.year <= 9999 && |t| >= 10 && t[0..10] == DateTime.FormatDate(p)
    ensures S.DateShape(t)
    ensures NatAt(t, 0, 4) == p.year && NatAt(t, 5, 2) == p.month && NatAt(t, 8, 2) == p.day
  {
    DateTime.Powers();
    hide DateTime.FormatDate, Digits, NatAt, S.DigitsAt;
    var d := DateTime.FormatDate(p);
    DateTime.DateShape(p);
    DateTime.Within(t, 0, d, 0, 4);
    DateTime.Within(t, 0, d, 5, 7);
    DateTime.Within(t, 0, d, 8, 10);
    DateTime.Char(t, 0, d, 4);
    DateTime.Char(t, 0, d, 7);
    NatReads(t, 0, p.year, 4);
    NatReads(t, 5, p.month, 2);
    NatReads(t, 8, p.day, 2);
  }

  lemma TimeReads(p: DateTime.Parts, t: string, i: nat)
    requires DateTime.ClockInRange(p) && |t| >= i + 8 && t[i..i + 8] == DateTime.FormatTime(p)
    ensures S.TimeShape(t, i)
    ensures NatAt(t, i, 2) == p.hour && NatAt(t, i + 3, 2) == p.minute && NatAt(t, i + 6, 2) == p.second
  {
    DateTime.Powers();
    hide DateTime.FormatTime, Digits, NatAt, S.DigitsAt;
    var c := DateTime.FormatTime(p);
    DateTime.TimeShape(p);
    DateTime.Within(t, i, c, 0, 2);
    DateTime.Within(t, i, c, 3, 5);
    DateTime.Within(t, i, c, 6, 8);
    DateTime.Char(t, i, c, 2);
    DateTime.Char(t, i, c, 5);
    NatReads(t, i, p.hour, 2);
    NatReads(t, i + 3, p.minute, 2);
    NatReads(t, i + 6, p.second, 2);
  }

  lemma Segments(a: string, x: char, b: string, y: char)
    ensures var t := Segmented(a, x, b, y);
            |t| == |a| + |b| + 2 && t[0..|a|] == a && t[|a|] == x && t[|a| + 1..|a| + 1 + |b|] == b &&
            t[|a| + 1 + |b|] == y
  {
  }

  lemma MomentSegments(p: DateTime.Parts)
    requires DateTime.ClockInRange(p) && |DateTime.FormatDate(p)| == 10
    ensures var t := MomentText(p);
            |t| == 20 && t[0..10] == DateTime.FormatDate(p) && t[10] == 'T' && t[11..19] == DateTime.FormatTime(p) &&
            t[19] == 'Z'
  {
    DateTime.TimeShape(p);
    hide Segmented, DateTime.FormatDate, DateTime.FormatTime;
    Segments(DateTime.FormatDate(p), 'T', DateTime.FormatTime(p), 'Z');
  }

  lemma MomentFields(p: DateTime.Parts)
    requires DateTime.DateInRange(p) && DateTime.ClockInRange(p) && 0 <= p.year <= 9999
    ensures var t := MomentText(p);
            |t| == 20 && t[10] == 'T' && t[19] == 'Z' && S.DateShape(t) && S.TimeShape(t, 11) &&
            NatAt(t, 0, 4) == p.year && NatAt(t, 5, 2) == p.month && NatAt(t, 8, 2) == p.day &&
            NatAt(t, 11, 2) == p.hour && NatAt(t, 14, 2) == p.minute && NatAt(t, 17, 2) == p.second
  {
    hide MomentText, DateTime.FormatDate, DateTime.FormatTime, S.DateShape, S.TimeShape, NatAt;
    DateTime.DateShape(p);
    MomentSegments(p);
    DayReads(p, MomentText(p));
    TimeReads(p, MomentText(p), 11);
  }

  lemma MomentReads(org: Org, p: DateTime.Parts)
    requires DateTime.DateInRange(p) && DateTime.ClockInRange(p) && 0 <= p.year <= 9999
    ensures MomentForm(MomentText(p))
    ensures Denote(org, S.Moment(MomentText(p))) == MomentVal(p.year, p.month, p.day, p.hour, p.minute, p.second, 0)
  {
    hide MomentText, S.DateShape, S.TimeShape, NatAt;
    MomentFields(p);
  }

  lemma PadIs(n: nat, width: nat)
    requires width > 0 && n < Pow10(width)
    ensures DateTime.Pad(n, width) == Digits(n, width)
  {
    assert "" + Digits(n, width) == Digits(n, width);
  }

  lemma ClockSegments(p: DateTime.Parts)
    requires DateTime.ClockInRange(p)
    ensures var t := ClockText(p);
            |t| == 13 && t[0..8] == DateTime.FormatTime(p) && t[8] == '.' && t[9..12] == Digits(p.millis, 3) &&
            t[12] == 'Z'
  {
    DateTime.Powers();
    DateTime.TimeShape(p);
    PadIs(p.millis, 3);
    hide Segmented, DateTime.FormatTime, DateTime.Pad, Digits;
    Segments(DateTime.FormatTime(p), '.', DateTime.Pad(p.millis, 3), 'Z');
  }

  lemma ClockReads(org: Org, p: DateTime.Parts)
    requires DateTime.ClockInRange(p)
    ensures ClockForm(ClockText(p))
    ensures Denote(org, S.Clock(ClockText(p))) == ClockVal(p.hour, p.minute, p.second, p.millis)
  {
    DateTime.Powers();
    hide ClockText, DateTime.FormatTime, Digits, S.TimeShape, S.DigitsAt, NatAt;
    ClockSegments(p);
    TimeReads(p, ClockText(p), 0);
    NatReads(ClockText(p), 9, p.millis, 3);
  }

  lemma LongYear(p: DateTime.Parts)
    requires DateTime.DateInRange(p) && (p.year < 0 || p.year > 9999)
    ensures |DateTime.FormatDate(p)| > 10 || (|DateTime.FormatDate(p)| > 0 && DateTime.FormatDate(p)[0] == '-')
  {
    DateTime.Powers();
    var y := DateTime.Pad(p.year, 4);
    assert DateTime.FormatDate(p) == y + ("-" + DateTime.Pad(p.month, 2) + "-" + DateTime.Pad(p.day, 2));
    if p.year > 9999 {
      DecimalLength(p.year, 4);
    } else {
      assert y[0] == '-';
    }
  }

  lemma LongYearUnreadable(p: DateTime.Parts)
    requires DateTime.DateInRange(p) && DateTime.ClockInRange(p) && (p.year < 0 || p.year > 9999)
    ensures !DayForm(DateTime.FormatDate(p)) && !MomentForm(MomentText(p))
  {
    var d, t := DateTime.FormatDate(p), MomentText(p);
    LongYear(p);
    DateTime.TimeShape(p);
    hide Segmented, DateTime.FormatDate, DateTime.FormatTime, S.TimeShape;
    Segments(d, 'T', DateTime.FormatTime(p), 'Z');
    assert |d| > 0 ==> t[0] == t[0..|d|][0];
    assert |d| >= 4 ==> d[0..4][0] == d[0];
    assert |t| >= 4 ==> t[0..4][0] == t[0];
  }

  /** A date is spelled in the org's form exactly when its year has four digits. */
  lemma DateReadable(p: DateTime.Parts)
    requires DateTime.DateInRange(p) && DateTime.ClockInRange(p)
    ensures ReadableValue(S.Day(DateTime.FormatDate(p))) <==> 0 <= p.year <= 9999
    ensures ReadableValue(S.Moment(MomentText(p))) <==> 0 <= p.year <= 9999
  {
    hide DateTime.FormatDate, MomentText, MomentForm, S.DateShape;
    if 0 <= p.year <= 9999 {
      DateTime.DateShape(p);
      DayReads(p, DateTime.FormatDate(p));
      MomentReads(Org(_ => 0.0, (_, _) => false), p);
    } else {
      LongYearUnreadable(p);
    }
  }

  /** The literal has no milliseconds that a datetime field would see. */
  predicate WholeSecond(lit: Lit, t: string) {
    lit.kind != NullLit && t == "datetime" && DateTime.Parse(lit.text).Some? ==>
    DateTime.Parse(lit.text).value.millis == 0
  }

  lemma TypeClasses()
    ensures ClassOf("date") == Days && ClassOf("datetime") == Moments && ClassOf("time") == Clocks
    ensures ClassOf("boolean") == Flags
  {
  }

  lemma DayDenotes(org: Org, p: DateTime.Parts)
    requires DateTime.DateInRange(p) && DateTime.ClockInRange(p) && ReadableValue(S.Day(DateTime.FormatDate(p)))
    ensures Denote(org, S.Day(DateTime.FormatDate(p))) == DayVal(p.year, p.month, p.day)
  {
    DateReadable(p);
    DateTime.DateShape(p);
    hide DateTime.FormatDate, S.DateShape, NatAt, ReadableValue;
    DayReads(p, DateTime.FormatDate(p));
  }

  lemma DayKept(env: Env, org: Org, lit: Lit, v: S.Value)
    requires lit.kind != NullLit && SoqlValue(env, lit, "date") == Ok(v) && ReadableValue(v)
    ensures Denote(org, v) == LitVal(org, lit, "date")
  {
    TypeClasses();
    DaySent(env, lit);
    hide SoqlValue, ClassOf, DateTime.Parse, DateTime.FormatDate, Denote, ReadableValue, ToLower, Trim;
    DateTime.ParsedInstant(lit.text);
    DayDenotes(org, DateTime.Parse(lit.text).value);
  }

  lemma MomentKept(env: Env, org: Org, lit: Lit, v: S.Value)
    requires lit.kind != NullLit && SoqlValue(env, lit, "datetime") == Ok(v) && ReadableValue(v)
    ensures DateTime.Parse(lit.text).Some?
    ensures var p := DateTime.Parse(lit.text).value;
            Denote(org, v) == MomentVal(p.year, p.month, p.day, p.hour, p.minute, p.second, 0) &&
            LitVal(org, lit, "datetime") == MomentVal(p.year, p.month, p.day, p.hour, p.minute, p.second, p.millis)
  {
    TypeClasses();
    MomentSent(env, lit);
    hide SoqlValue, ClassOf, DateTime.Parse, MomentText, Denote, ReadableValue, ToLower, Trim;
    var p := DateTime.Parse(lit.text).value;
    DateTime.ParsedInstant(lit.text);
    DateReadable(p);
    MomentReads(org, p);
  }

  lemma ClockKept(env: Env, org: Org, lit: Lit, v: S.Value)
    requires lit.kind != NullLit && SoqlValue(env, lit, "time") == Ok(v)
    ensures Denote(org, v) == LitVal(org, lit, "time")
  {
    TypeClasses();
    ClockSent(env, lit);
    hide SoqlValue, ClassOf, DateTime.Parse, ClockText, Denote, ToLower, Trim, MomentText, DateTime.FormatDate;
    DateTime.ParsedInstant(lit.text);
    ClockReads(org, DateTime.Parse(lit.text).value);
  }

  /** Literals of fields that hold no date or time. */
  lemma PlainKept(env: Env, org: Org, lit: Lit, t: string, v: S.Value)
    requires SoqlValue(env, lit, t) == Ok(v)
    requires lit.kind == NullLit || ClassOf(t) == Numbers || ClassOf(t) == Flags || ClassOf(t) == Texts
    ensures Denote(org, v) == LitVal(org, lit, t) && !LitVal(org, lit, t).MomentVal?
    ensures lit.kind != NullLit ==> t != "datetime"
  {
    TypeClasses();
    if lit.kind != NullLit {
      match ClassOf(t)
      case Numbers => NumberSent(env, lit, t);
      case Flags => FlagSent(env, lit);
      case Texts => TextSent(env, lit, t);
    }
    hide DateTime.Parse, ToLower, Trim, IEquals, ClassOf;
    if lit.kind != NullLit { hide SoqlValue; }
  }

  /** The value the org reads is the value that is sent, and the value the literal stands for
      exactly when no milliseconds are dropped from a datetime. */
  lemma LiteralKept(env: Env, org: Org, lit: Lit, t: string, v: S.Value)
    requires SoqlValue(env, lit, t) == Ok(v) && ReadableValue(v)
    ensures Denote(org, v) == SentVal(org, lit, t)
    ensures Denote(org, v) == LitVal(org, lit, t) <==> WholeSecond(lit, t)
  {
    ClassTypes(t);
    TypeClasses();
    hide SoqlValue, ClassOf, LitVal, DateTime.Parse, Denote, ReadableValue;
    if lit.kind != NullLit && t == "date" {
      DayKept(env, org, lit, v);
      DayHolds(org, lit);
    } else if lit.kind != NullLit && t == "datetime" {
      MomentKept(env, org, lit, v);
    } else if lit.kind != NullLit && t == "time" {
      ClockKept(env, org, lit, v);
      DayHolds(org, lit);
    } else {
      PlainKept(env, org, lit, t, v);
    }
  }

  lemma ClassTypes(t: string)
    ensures ClassOf(t) == Days ==> t == "date"
    ensures ClassOf(t) == Moments ==> t == "datetime"
    ensures ClassOf(t) == Clocks ==> t == "time"
  {
  }

  lemma DayHolds(org: Org, lit: Lit)
    ensures !LitVal(org, lit, "date").MomentVal? && !LitVal(org, lit, "time").MomentVal?
  {
    TypeClasses();
    hide DateTime.Parse, ClassOf;
  }

  lemma SentWhole(org: Org, lit: Lit, t: string)
    ensures SentVal(org, lit, t) == LitVal(org, lit, t) <==> WholeSecond(lit, t)
  {
    hide DateTime.Parse;
  }

  // ---------------------------------------------------------------- conditions keep their meaning

  predicate ConditionHolds(org: Org, t: S.Tree<S.Value>, rec: Record) {
    Eval(org, NodeOf(t), rec)
  }

  /** Folding a comparison of two literals keeps its meaning: numbers by value, texts in the
      order of a dictionary. */
  lemma FoldKept(env: Env, a: Lit, op: S.CmpOp, b: Lit)
    ensures FoldCompare(env, a, op, b) == LitHolds(env, a, op, b)
  {
    TextCompareOrders(a.text, b.text);
    hide TextCompare, TextLess;
  }

  /** Swapping the operands and flipping the operator is the same comparison. */
  lemma FlipKept(op: S.CmpOp, x: Val, y: Val)
    ensures Holds(Flip(op), x, y) == Holds(op, y, x)
  {
  }

  /** The org's comparison is the driver's; but with a NULL that is ordered it asks for a value. */
  lemma CompareKept(op: S.CmpOp, val: Val, target: Val)
    ensures EvalCompare(op, val, target) ==
            if target.Missing? && op != S.Eq && op != S.Ne then !val.Missing? else Holds(op, val, target)
  {
  }

  lemma OperandKept(env: Env, org: Org, o: Operand, col: Field, params: seq<Lit>, v: S.Value)
    requires PieceOf(env, o, col).Ok? && BindPiece(env, PieceOf(env, o, col).value, params) == Ok(v)
    requires ReadableValue(v)
    ensures Denote(org, v) == SentVal(org, LitOf(o, params), col.sfType)
    ensures v == S.Null <==> LitOf(o, params).kind == NullLit
  {
    hide DateTime.Parse, DateTime.FormatDate, MomentText, ClockText, Denote, LitVal, SentVal;
    LiteralKept(env, org, LitOf(o, params), col.sfType, v);
  }

  lemma DenoteNull(org: Org, v: S.Value)
    ensures Denote(org, v).Missing? <==> v == S.Null
  {
  }

  /** `c`, bound to the parameters and read by the org, holds on the record exactly when `meaning` does. */
  predicate Keeps(env: Env, org: Org, c: Compiled, params: seq<Lit>, rec: Record, meaning: bool) {
    if c.Decided? then c.value == meaning
    else
      var bound := Bind(env, c.tree, params);
      bound.Ok? && Readable(bound.value) ==> ConditionHolds(org, bound.value, rec) == meaning
  }

  lemma SentOperand(env: Env, o: Operand, col: Field)
    ensures PieceOf(env, o, col).Ok? ==> o.Param? || o.Literal?
  {
  }

  lemma ComparisonKept(env: Env, org: Org, op: S.CmpOp, a: Operand, b: Operand, params: seq<Lit>, rec: Record)
    requires CompileCompare(env, op, a, b).Ok?
    ensures Keeps(env, org, CompileCompare(env, op, a, b).value, params, rec,
                  SentMeaning(env, org, Compare(op, a, b), params, rec))
  {
    hide PieceOf, BindPiece, ReadableValue, Denote, LitVal, SentVal, Holds, EvalCompare, FoldCompare, LitHolds;
    var swap := !a.Column? && b.Column?;
    var x, y, o := if swap then b else a, if swap then a else b, if swap then Flip(op) else op;
    if !x.Column? {
      FoldKept(env, a.lit, op, b.lit);
    } else {
      var col := env.resolve(x.path).value;
      var c := CompileCompare(env, op, a, b).value;
      if c.Condition? {
        var bound := Bind(env, c.tree, params);
        SentOperand(env, y, col);
        if bound.Ok? && Readable(bound.value) {
          OperandKept(env, org, y, col, params, bound.value.value);
          DenoteNull(org, bound.value.value);
          CompareKept(o, rec.at(col.soql), Denote(org, bound.value.value));
        }
      }
    }
  }

  lemma NullNotOrdered(org: Org, lit: Lit, t: string, op: S.CmpOp, val: Val)
    requires lit.kind == NullLit && op != S.Eq && op != S.Ne
    ensures !Holds(op, val, LitVal(org, lit, t))
  {
  }

  lemma JoinKept(env: Env, org: Org, isAnd: bool, x: Compiled, y: Compiled, params: seq<Lit>, rec: Record, l: bool,
                 r: bool)
    requires Keeps(env, org, x, params, rec, l) && Keeps(env, org, y, params, rec, r)
    ensures Keeps(env, org, CompileJoin(isAnd, x, y), params, rec, if isAnd then l && r else l || r)
  {
  }

  lemma NotKept(env: Env, org: Org, x: Compiled, params: seq<Lit>, rec: Record, m: bool)
    requires x.Condition? && Keeps(env, org, x, params, rec, m)
    ensures Keeps(env, org, Condition(S.Not(x.tree)), params, rec, !m)
  {
  }

  /** Milliseconds do not matter where a pattern is read. */
  lemma PatternKept(org: Org, val: Val, lit: Lit, t: string, v: S.Value)
    requires Denote(org, v) == SentVal(org, lit, t) && (v == S.Null <==> lit.kind == NullLit)
    ensures EvalLike(org, val, Denote(org, v)) == SentLike(org, val, lit, t)
  {
    DenoteNull(org, v);
    hide LitVal, Denote;
  }

  lemma LikeKept(env: Env, org: Org, a: Operand, b: Operand, params: seq<Lit>, rec: Record)
    requires a.Column? && env.resolve(a.path).Ok? && PieceOf(env, b, env.resolve(a.path).value).Ok?
    ensures var col := env.resolve(a.path).value;
            Keeps(env, org, Condition(S.Like(col.soql, PieceOf(env, b, col).value)), params, rec,
                  SentLike(org, rec.at(col.soql), LitOf(b, params), col.sfType))
  {
    hide PieceOf, BindPiece, ReadableValue, Denote, LitVal, SentVal, EvalLike, SentLike;
    var col := env.resolve(a.path).value;
    var bound := Bind(env, S.Like(col.soql, PieceOf(env, b, col).value), params);
    if bound.Ok? && Readable(bound.value) {
      OperandKept(env, org, b, col, params, bound.value.value);
      PatternKept(org, rec.at(col.soql), LitOf(b, params), col.sfType, bound.value.value);
    }
  }

  lemma {:induction false} ListKept(env: Env, org: Org, list: seq<Operand>, col: Field, params: seq<Lit>,
                                    vs: seq<S.Value>)
    requires PiecesOf(env, list, col).Ok? && BindPieces(env, PiecesOf(env, list, col).value, params) == Ok(vs)
    requires forall i :: 0 <= i < |vs| ==> ReadableValue(vs[i])
    ensures |vs| == |list|
    ensures forall i :: 0 <= i < |vs| ==> Denote(org, vs[i]) == SentVal(org, LitOf(list[i], params), col.sfType)
  {
    hide PieceOf, BindPiece, ReadableValue, Denote, SentVal, LitOf;
    if list != [] {
      OperandKept(env, org, list[0], col, params, vs[0]);
      ListKept(env, org, list[1..], col, params, vs[1..]);
      forall i | 0 <= i < |vs|
        ensures Denote(org, vs[i]) == SentVal(org, LitOf(list[i], params), col.sfType)
      {
        if i > 0 {
          assert vs[i] == vs[1..][i - 1] && list[i] == list[1..][i - 1];
        }
      }
    }
  }

  lemma InKept(env: Env, org: Org, a: Operand, list: seq<Operand>, params: seq<Lit>, rec: Record)
    requires a.Column? && env.resolve(a.path).Ok? && PiecesOf(env, list, env.resolve(a.path).value).Ok?
    ensures var col := env.resolve(a.path).value;
            var ps := PiecesOf(env, list, col).value;
            var m := exists i :: 0 <= i < |list| &&
                                 Same(rec.at(col.soql), SentVal(org, LitOf(list[i], params), col.sfType));
            Keeps(env, org, Condition(S.In(col.soql, ps)), params, rec, m) &&
            Keeps(env, org, Condition(S.NotIn(col.soql, ps)), params, rec, !m)
  {
    hide PiecesOf, BindPieces, ReadableValue, Denote, SentVal, LitOf, Same;
    var col := env.resolve(a.path).value;
    var ps := PiecesOf(env, list, col).value;
    var vs := BindPieces(env, ps, params);
    if vs.Ok? && Readable(S.In(col.soql, vs.value)) {
      ListKept(env, org, list, col, params, vs.value);
    }
  }

  /** On every record the compiled condition holds exactly when what the org is asked does. */
  lemma {:induction false} CompileKept(env: Env, org: Org, e: Expr, params: seq<Lit>, rec: Record)
    requires Compile(env, e).Ok?
    ensures Keeps(env, org, Compile(env, e).value, params, rec, SentMeaning(env, org, e, params, rec))
  {
    hide Keeps, CompileCompare, CompileJoin, SentCompare, LitHolds, LitVal, SentVal, SentLike, Same;
    match e
    case And(l, r) =>
      CompileKept(env, org, l, params, rec);
      CompileKept(env, org, r, params, rec);
      JoinKept(env, org, true, Compile(env, l).value, Compile(env, r).value, params, rec,
               SentMeaning(env, org, l, params, rec), SentMeaning(env, org, r, params, rec));
    case Or(l, r) =>
      CompileKept(env, org, l, params, rec);
      CompileKept(env, org, r, params, rec);
      JoinKept(env, org, false, Compile(env, l).value, Compile(env, r).value, params, rec,
               SentMeaning(env, org, l, params, rec), SentMeaning(env, org, r, params, rec));
    case Not(a) =>
      CompileKept(env, org, a, params, rec);
      NegationKept(env, org, a, params, rec);
    case Compare(op, a, b) => ComparisonKept(env, org, op, a, b, params, rec);
    case IsNull(a, negated) => NullTestKept(env, org, a, negated, params, rec);
    case Like(a, b, negated) => LikeTestKept(env, org, a, b, negated, params, rec);
    case In(a, list, negated) => InKept(env, org, a, list, params, rec);
  }

  lemma NegationKept(env: Env, org: Org, a: Expr, params: seq<Lit>, rec: Record)
    requires Compile(env, a).Ok?
    requires Keeps(env, org, Compile(env, a).value, params, rec, SentMeaning(env, org, a, params, rec))
    ensures Keeps(env, org, Compile(env, Not(a)).value, params, rec, SentMeaning(env, org, Not(a), params, rec))
  {
    if Compile(env, a).value.Condition? {
      NotKept(env, org, Compile(env, a).value, params, rec, SentMeaning(env, org, a, params, rec));
    }
  }

  lemma NullTestKept(env: Env, org: Org, a: Operand, negated: bool, params: seq<Lit>, rec: Record)
    requires Compile(env, IsNull(a, negated)).Ok?
    ensures Keeps(env, org, Compile(env, IsNull(a, negated)).value, params, rec,
                  SentMeaning(env, org, IsNull(a, negated), params, rec))
  {
  }

  lemma LikeTestKept(env: Env, org: Org, a: Operand, b: Operand, negated: bool, params: seq<Lit>, rec: Record)
    requires Compile(env, Like(a, b, negated)).Ok?
    ensures Keeps(env, org, Compile(env, Like(a, b, negated)).value, params, rec,
                  SentMeaning(env, org, Like(a, b, negated), params, rec))
  {
    hide Keeps, SentLike, LitVal, PieceOf;
    LikeKept(env, org, a, b, params, rec);
    var col := env.resolve(a.path).value;
    var like := Condition(S.Like(col.soql, PieceOf(env, b, col).value));
    if negated {
      NotKept(env, org, like, params, rec, SentLike(org, rec.at(col.soql), LitOf(b, params), col.sfType));
    }
  }
}
