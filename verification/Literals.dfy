/** What a literal is sent as for each type a Salesforce field may have, and which literals are
    refused (src/sql_plan.cpp:232-288). */
module Literals {
  import opened Wrappers
  import opened Text
  import opened Sql
  import opened SqlPlan
  import opened SqlMeaning
  import DateTime
  import S = Soql

  lemma NullSent(env: Env, t: string)
    ensures SoqlValue(env, NULL, t) == Ok(S.Null)
  {
  }

  /** For the five numeric types a number is sent as it is written, a truth value as 1 or 0, and
      any other text is refused. */
  lemma NumberSent(env: Env, lit: Lit, t: string)
    requires t == "int" || t == "long" || t == "double" || t == "currency" || t == "percent"
    requires lit.kind != NullLit
    ensures var v := Trim(lit.text);
            SoqlValue(env, lit, t) ==
            if lit.kind == BoolLit then Ok(S.Num(if v == "true" then "1" else "0"))
            else if v != "" && env.isNumber(v) then Ok(S.Num(v))
            else Err("22018")
  {
    hide Trim;
  }

  /** Truth values are sent as such, written as words in any case or as 1 and 0. */
  lemma FlagSent(env: Env, lit: Lit)
    requires lit.kind != NullLit
    ensures var v := Trim(lit.text);
            SoqlValue(env, lit, "boolean") ==
            if IEquals(v, "true") || v == "1" then Ok(S.True)
            else if IEquals(v, "false") || v == "0" then Ok(S.False)
            else Err("22018")
  {
    hide Trim;
    var v := Trim(lit.text);
    assert ToLower("true") == "true" && ToLower("false") == "false" && ToLower("1") == "1" && ToLower("0") == "0";
    SameFigure(v, '1');
    SameFigure(v, '0');
  }

  lemma SameFigure(v: string, c: char)
    requires IsDigit(c)
    ensures ToLower(v) == [c] <==> v == [c]
  {
    if ToLower(v) == [c] { assert Lower(v[0]) == c; }
  }

  /** For a date field the day of a text with a date. */
  lemma DaySent(env: Env, lit: Lit)
    requires lit.kind != NullLit
    ensures var p := DateTime.Parse(lit.text);
            SoqlValue(env, lit, "date") ==
            if p.Some? && p.value.hasDate then Ok(S.Day(DateTime.FormatDate(p.value))) else Err("22007")
  {
    hide DateTime.Parse, DateTime.FormatDate, ToLower, Trim;
  }

  /** For a datetime field the UTC second of a text with a date. */
  lemma MomentSent(env: Env, lit: Lit)
    requires lit.kind != NullLit
    ensures var p := DateTime.Parse(lit.text);
            SoqlValue(env, lit, "datetime") ==
            if p.Some? && p.value.hasDate then Ok(S.Moment(MomentText(p.value))) else Err("22007")
  {
    hide DateTime.Parse, MomentText, DateTime.FormatDate, ToLower, Trim;
  }

  /** For a time field the time of day of a text with one. */
  lemma ClockSent(env: Env, lit: Lit)
    requires lit.kind != NullLit
    ensures var p := DateTime.Parse(lit.text);
            SoqlValue(env, lit, "time") ==
            if p.Some? && p.value.hasTime then Ok(S.Clock(ClockText(p.value))) else Err("22007")
  {
    hide DateTime.Parse, ClockText, MomentText, DateTime.FormatDate, ToLower, Trim;
  }

  /** For any other type the text itself, as a string. */
  lemma TextSent(env: Env, lit: Lit, t: string)
    requires lit.kind != NullLit
    requires t != "int" && t != "long" && t != "double" && t != "currency" && t != "percent"
    requires t != "boolean" && t != "date" && t != "datetime" && t != "time"
    ensures SoqlValue(env, lit, t) == Ok(S.Str(lit.text))
  {
  }

  // ---------------------------------------------------------------- what is accepted

  /** A literal that may be compared with a field of type `t`. */
  predicate Accepted(env: Env, lit: Lit, t: string) {
    lit.kind == NullLit ||
    var word, p := Trim(lit.text), DateTime.Parse(lit.text);
    match ClassOf(t)
    case Numbers => lit.kind == BoolLit || (word != "" && env.isNumber(word))
    case Flags => IEquals(word, "true") || word == "1" || IEquals(word, "false") || word == "0"
    case Texts => true
    case Clocks => p.Some? && p.value.hasTime
    case _ => p.Some? && p.value.hasDate
  }

  lemma LiteralAccepted(env: Env, lit: Lit, t: string)
    ensures SoqlValue(env, lit, t).Ok? <==> Accepted(env, lit, t)
  {
    if lit.kind != NullLit {
      hide SoqlValue, DateTime.Parse, Trim, IEquals;
      match ClassOf(t)
      case Numbers => NumberSent(env, lit, t);
      case Flags => FlagSent(env, lit);
      case Days => DaySent(env, lit);
      case Moments => MomentSent(env, lit);
      case Clocks => ClockSent(env, lit);
      case Texts => TextSent(env, lit, t);
    }
  }
}
