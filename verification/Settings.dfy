/** What any connection string says, setting by setting (src/config.cpp:25-62). */
module Settings {
  import opened Wrappers
  import opened Text
  import opened Scanning
  import opened Config

  // ---------------------------------------------------------------- how settings may be written

  /** Between settings stand semicolons and white space. */
  predicate Gap(s: string) {
    forall i :: 0 <= i < |s| ==> s[i] == ';' || s[i] == ' ' || 9 <= s[i] as int <= 13
  }

  predicate Lacks(s: string, c: char) {
    forall i :: 0 <= i < |s| ==> s[i] != c
  }

  predicate Blanks(s: string) {
    forall i :: 0 <= i < |s| ==> s[i] == ' '
  }

  predicate Opens(s: string, c: char) {
    s != "" && s[0] == c
  }

  /** A value behind its blanks: as it stands, or in braces with the closing ones inside doubled; what
      follows the braces up to the semicolon does not count, and the last value may lack the brace. */
  datatype Value = Plain(text: string) | Braces(v: string, junk: string) | Unclosed(v: string)

  datatype Setting = Setting(gap: string, key: string, blanks: string, value: Value)

  function ValueText(v: Value): string {
    match v
    case Plain(text) => text
    case Braces(v, junk) => "{" + Closed(v, junk)
    case Unclosed(v) => "{" + Doubled(v)
  }

  function Meant(v: Value): string {
    match v
    case Plain(text) => Trim(text)
    case Braces(v, _) => v
    case Unclosed(v) => v
  }

  predicate ValueOk(v: Value, rest: string) {
    match v
    case Plain(text) => Lacks(text, ';') && !Opens(text, ' ') && !Opens(text, '{') && (rest == "" || rest[0] == ';')
    case Braces(_, junk) => Lacks(junk, ';') && !Opens(junk, '}') && (rest == "" || rest[0] == ';')
    case Unclosed(_) => rest == ""
  }

  function SettingText(s: Setting, rest: string): string {
    s.gap + (s.key + ("=" + (s.blanks + (ValueText(s.value) + rest))))
  }

  predicate SettingOk(s: Setting, rest: string) {
    Gap(s.gap) && Lacks(s.key, '=') && (s.key != "" ==> !Gap(s.key[..1])) && Blanks(s.blanks) && ValueOk(s.value, rest)
  }

  /** Settings and what is left behind the last of them, which has no equals sign. */
  function Layout(settings: seq<Setting>, tail: string): string {
    if settings == [] then tail else SettingText(settings[0], Layout(settings[1..], tail))
  }

  predicate LayoutOk(settings: seq<Setting>, tail: string) {
    if settings == [] then Lacks(tail, '=')
    else SettingOk(settings[0], Layout(settings[1..], tail)) && LayoutOk(settings[1..], tail)
  }

  /** The value of the last setting whose key means `q`, or `before` if there is none. */
  function LastValue(settings: seq<Setting>, q: string, before: Option<string>): Option<string> {
    if settings == [] then before
    else
      var s := settings[0];
      var now := if Trim(s.key) != "" && IEquals(q, Canonical(s.key)) then Some(Meant(s.value)) else before;
      LastValue(settings[1..], q, now)
  }

  // ---------------------------------------------------------------- runs

  lemma {:induction false} RunIs(v: string, rest: string, p: char -> bool)
    requires All(v, p) && (rest == "" || !p(rest[0]))
    ensures Run(v + rest, p) == |v| && (v + rest)[|v|..] == rest && (v + rest)[..|v|] == v
  {
    RunOver(v, rest, p);
  }

  lemma {:induction false} RunSplits(s: string, p: char -> bool)
    ensures var n := Run(s, p); All(s[..n], p) && (n < |s| ==> !p(s[n])) && s == s[..n] + s[n..]
  {
    RunHolds(s, p);
  }

  // ---------------------------------------------------------------- values

  /** A value behind its blanks, and how much of the text it takes. */
  function Front(t: string): (string, nat) {
    if Opens(t, '{') then
      var (v, n) := Braced(t[1..]);
      (v, n + 1 + Run(t[n + 1..], NotSemicolon))
    else
      var n := Run(t, NotSemicolon);
      (Trim(t[..n]), n)
  }

  lemma FrontIs(s: string)
    ensures var k := Run(s, Blank); ReadValue(s) == (Front(s[k..]).0, k + Front(s[k..]).1)
  {
    hide Run, Braced, Trim;
    var k := Run(s, Blank);
    var t := s[k..];
    if Opens(t, '{') {
      Dropped(s, k, 1);
      Dropped(s, k, Braced(t[1..]).1 + 1);
    } else {
      Dropped(s, k, Run(t, NotSemicolon));
    }
  }

  lemma PlainReads(text: string, rest: string)
    requires ValueOk(Plain(text), rest)
    ensures ReadValue(text + rest) == (Trim(text), |text|)
  {
    var s := text + rest;
    RunIs(text, rest, NotSemicolon);
    assert Run(s, Blank) == 0 by { if s != "" { assert s[0] == if text != "" then text[0] else rest[0]; } }
    assert s[0..] == s && s[0..|text|] == text;
  }

  /** A value in braces, up to the semicolon behind it. */
  lemma BraceFront(s: string, body: string, n: nat, junk: string, rest: string)
    requires s == "{" + body && n == Braced(body).1 && body[n..] == junk + rest
    requires Lacks(junk, ';') && (rest == "" || rest[0] == ';')
    ensures ReadValue(s) == (Braced(body).0, n + 1 + |junk|)
  {
    hide Braced, ReadValue, Run;
    NoBlank(s);
    FrontIs(s);
    assert s[0..] == s && s[1..] == body;
    assert s[n + 1..] == body[n..];
    RunIs(junk, rest, NotSemicolon);
  }

  lemma BracesRead(v: string, junk: string, rest: string)
    requires ValueOk(Braces(v, junk), rest)
    ensures ReadValue("{" + Closed(v, junk) + rest) == (v, |Closed(v, junk)| + 1)
  {
    hide Braced, Closed, Doubled, ReadValue, Run;
    var body := Closed(v, junk + rest);
    ClosedBoth(v, junk, rest);
    BracedReads(v, junk + rest);
    ClosedShape(v, junk + rest);
    assert "{" + Closed(v, junk) + rest == "{" + body;
    BraceFront("{" + body, body, |Doubled(v)| + 1, junk, rest);
  }

  lemma NoBlank(s: string)
    requires Opens(s, '{')
    ensures Run(s, Blank) == 0
  {
  }

  lemma ClosedBoth(v: string, junk: string, rest: string)
    ensures Closed(v, junk) + rest == Closed(v, junk + rest)
    ensures |Closed(v, junk)| == |Doubled(v)| + 1 + |junk|
  {
    assert Closed(v, junk) + rest == Doubled(v) + (("}" + junk) + rest);
    assert ("}" + junk) + rest == "}" + (junk + rest);
  }

  lemma {:induction false} UnclosedBraced(v: string)
    ensures Braced(Doubled(v)) == (v, |Doubled(v)|)
  {
    hide Braced;
    BracedUnfoldsNot(Doubled(v));
    if v != "" {
      UnclosedBraced(v[1..]);
      var s, tail := Doubled(v), Doubled(v[1..]);
      BracedUnfolds(s);
      assert [v[0]] + v[1..] == v;
      if v[0] == '}' { assert s[2..] == tail; } else { assert s[1..] == tail; }
    }
  }

  lemma BracedUnfoldsNot(s: string)
    ensures s == "" ==> Braced(s) == ("", 0)
  {
  }

  lemma UnclosedReads(v: string)
    ensures ReadValue("{" + Doubled(v)) == (v, |Doubled(v)| + 1)
  {
    hide Braced;
    var s := "{" + Doubled(v);
    UnclosedBraced(v);
    assert Run(s, Blank) == 0;
    assert s[1..] == Doubled(v) && s[|s|..] == "";
  }

  lemma BlanksSkipped(blanks: string, s: string)
    requires Blanks(blanks) && !Opens(s, ' ')
    ensures ReadValue(blanks + s) == (ReadValue(s).0, |blanks| + ReadValue(s).1)
  {
    hide ReadValue, Front;
    RunIs(blanks, s, Blank);
    RunIs("", s, Blank);
    assert "" + s == s && s[0..] == s;
    FrontIs(s);
    FrontIs(blanks + s);
  }

  lemma ValueReads(blanks: string, v: Value, rest: string)
    requires Blanks(blanks) && ValueOk(v, rest)
    ensures var s := blanks + (ValueText(v) + rest);
            ReadValue(s) == (Meant(v), |blanks| + |ValueText(v)|) && s[|blanks| + |ValueText(v)|..] == rest
  {
    hide ReadValue, Trim, Closed, Doubled;
    var text := ValueText(v) + rest;
    assert blanks + text == (blanks + ValueText(v)) + rest;
    match v
    case Plain(t) =>
      PlainReads(t, rest);
      assert text != "" ==> text[0] == if t != "" then t[0] else rest[0];
      BlanksSkipped(blanks, text);
    case Braces(u, junk) =>
      BracesRead(u, junk, rest);
      BlanksSkipped(blanks, text);
    case Unclosed(u) =>
      UnclosedReads(u);
      assert text == "{" + Doubled(u);
      BlanksSkipped(blanks, text);
  }

  // ---------------------------------------------------------------- settings

  lemma HereIs(s: Setting, rest: string)
    requires SettingOk(s, rest)
    ensures var text, after := SettingText(s, rest), s.blanks + (ValueText(s.value) + rest);
            var t := text[Run(text, Separator)..];
            t == s.key + ("=" + after) && Run(t, NotEquals) == |s.key| < |t| && t[..|s.key|] == s.key &&
            t[|s.key| + 1..] == after
  {
    hide Run, ValueText, ValueOk;
    var after := s.blanks + (ValueText(s.value) + rest);
    var t := s.key + ("=" + after);
    assert t[0] == if s.key != "" then s.key[0] else '=';
    assert s.key != "" ==> s.key[..1][0] == s.key[0];
    RunIs(s.gap, t, Separator);
    RunIs(s.key, "=" + after, NotEquals);
    assert ("=" + after)[1..] == after;
    assert t[|s.key|..][1..] == t[|s.key| + 1..];
  }

  /** One round of reading settings. */
  lemma Round(s: string, kv: seq<Entry>, t: string, n: nat, v: string, m: nat)
    requires t == s[Run(s, Separator)..] && n == Run(t, NotEquals) < |t| && ReadValue(t[n + 1..]) == (v, m)
    ensures m <= |t| - n - 1
    ensures ReadSettings(s, kv) ==
            ReadSettings(t[n + 1..][m..],
                         if Trim(t[..n]) == "" then kv else Assign(kv, Canonical(Trim(t[..n])), v))
  {
    hide Run, ReadValue, Assign, Canonical, Trim;
  }

  /** One setting is read as its canonical key and what its value means; without a key it is ignored. */
  lemma SettingReads(s: Setting, rest: string, kv: seq<Entry>)
    requires SettingOk(s, rest)
    ensures ReadSettings(SettingText(s, rest), kv) ==
            ReadSettings(rest, if Trim(s.key) == "" then kv else Assign(kv, Canonical(Trim(s.key)), Meant(s.value)))
  {
    hide Run, ReadValue, ReadSettings, Assign, Canonical, Trim, SettingText, ValueText, ValueOk, Meant;
    HereIs(s, rest);
    ValueReads(s.blanks, s.value, rest);
    var text := SettingText(s, rest);
    Round(text, kv, text[Run(text, Separator)..], |s.key|, Meant(s.value), |s.blanks| + |ValueText(s.value)|);
  }

  lemma NothingMore(tail: string, kv: seq<Entry>)
    requires Lacks(tail, '=')
    ensures ReadSettings(tail, kv) == kv
  {
    hide ReadValue, Assign, Canonical, Trim;
    var t := tail[Run(tail, Separator)..];
    RunSplits(t, NotEquals);
  }

  lemma TrimmedKey(key: string)
    ensures Canonical(Trim(key)) == Canonical(key)
  {
    TrimTrims(key);
    TrimTrims(Trim(key));
    hide Trim, Spelled;
  }

  lemma {:induction false} LayoutReads(settings: seq<Setting>, tail: string, kv: seq<Entry>, q: string)
    requires LayoutOk(settings, tail)
    ensures Get(ReadSettings(Layout(settings, tail), kv), q) == LastValue(settings, q, Get(kv, q))
  {
    hide ReadSettings, Assign, Canonical, Trim, IEquals, SettingText, SettingOk, Meant;
    if settings == [] {
      NothingMore(tail, kv);
    } else {
      var s, rest := settings[0], Layout(settings[1..], tail);
      SettingReads(s, rest, kv);
      TrimmedKey(s.key);
      if Trim(s.key) == "" {
        LayoutReads(settings[1..], tail, kv, q);
      } else {
        AssignGets(kv, Canonical(s.key), Meant(s.value), q);
        LayoutReads(settings[1..], tail, Assign(kv, Canonical(s.key), Meant(s.value)), q);
      }
    }
  }

  // ---------------------------------------------------------------- every string is one

  /** How a braced text ends: with the whole string, or with its closing brace. */
  predicate Ended(s: string, v: string, n: nat) {
    (n == |s| && s == Doubled(v)) || (0 < n <= |s| && s[..n] == Doubled(v) + "}" && !Opens(s[n..], '}'))
  }

  lemma EndedLater(s: string, first: string, c: char, v: string, n: nat)
    requires |first| <= |s| && s[..|first|] == first && first == (if c == '}' then "}}" else [c])
    requires Ended(s[|first|..], v, n)
    ensures Ended(s, [c] + v, n + |first|)
  {
    hide Doubled;
    var rest, k := s[|first|..], |first|;
    DoubledStep([c] + v);
    assert ([c] + v)[1..] == v;
    assert s == first + rest;
    assert first + (Doubled(v) + "}") == (first + Doubled(v)) + "}";
    assert s[..n + k] == first + rest[..n] && s[n + k..] == rest[n..];
  }

  lemma {:induction false} BracedIs(s: string)
    ensures Ended(s, Braced(s).0, Braced(s).1)
  {
    hide Doubled, Ended;
    if s == "" {
      EndedAtOnce(s);
    } else if s[0] != '}' {
      BracedIs(s[1..]);
      EndedLater(s, [s[0]], s[0], Braced(s[1..]).0, Braced(s[1..]).1);
    } else if |s| > 1 && s[1] == '}' {
      BracedIs(s[2..]);
      EndedLater(s, "}}", '}', Braced(s[2..]).0, Braced(s[2..]).1);
    } else {
      EndedAtOnce(s);
    }
  }

  lemma EndedAtOnce(s: string)
    ensures s == "" ==> Ended(s, "", 0)
    ensures s != "" && s[0] == '}' && (|s| == 1 || s[1] != '}') ==> Ended(s, "", 1)
  {
    assert s != "" && s[0] == '}' ==> s[..1] == "" + "}";
  }

  lemma DoubledStep(v: string)
    ensures v == "" ==> Doubled(v) == ""
    ensures v != "" ==> Doubled(v) == (if v[0] == '}' then "}}" else [v[0]]) + Doubled(v[1..])
  {
  }

  lemma JunkFound(u: string, t: string, body: string, n: nat) returns (v: Value, rest: string)
    requires t == "{" + body && n <= |body| && body[..n] == Doubled(u) + "}" && !Opens(body[n..], '}')
    ensures ValueOk(v, rest) && t == ValueText(v) + rest
  {
    hide Doubled, Run, Closed;
    var more := body[n..];
    RunSplits(more, NotSemicolon);
    var m := Run(more, NotSemicolon);
    v, rest := Braces(u, more[..m]), more[m..];
    JunkJoined(u, more[..m], rest, body, n);
    assert m > 0 ==> more[..m][0] == more[0];
  }

  lemma BracesFound(t: string) returns (v: Value, rest: string)
    requires Opens(t, '{')
    ensures ValueOk(v, rest) && t == ValueText(v) + rest
  {
    hide Doubled, Braced, Run, Closed;
    var body := t[1..];
    assert t == "{" + body;
    BracedIs(body);
    var (u, n) := Braced(body);
    if n == |body| && body == Doubled(u) {
      v, rest := Unclosed(u), "";
      assert t + "" == t;
    } else {
      v, rest := JunkFound(u, t, body, n);
    }
  }

  lemma PlainFound(t: string) returns (v: Value, rest: string)
    requires !Opens(t, '{') && !Opens(t, ' ')
    ensures ValueOk(v, rest) && t == ValueText(v) + rest
  {
    hide Run;
    RunSplits(t, NotSemicolon);
    var n := Run(t, NotSemicolon);
    v, rest := Plain(t[..n]), t[n..];
    assert n > 0 ==> t[..n][0] == t[0];
  }

  lemma ValueFound(s: string) returns (blanks: string, v: Value, rest: string)
    ensures Blanks(blanks) && ValueOk(v, rest) && s == blanks + (ValueText(v) + rest)
  {
    hide ValueText, ValueOk, Run;
    var k := Run(s, Blank);
    RunSplits(s, Blank);
    blanks := s[..k];
    var t := s[k..];
    assert t != "" ==> t[0] == s[k];
    if Opens(t, '{') { v, rest := BracesFound(t); } else { v, rest := PlainFound(t); }
  }

  lemma JunkJoined(u: string, junk: string, rest: string, body: string, n: nat)
    requires n <= |body| && body[..n] == Doubled(u) + "}" && body[n..] == junk + rest
    ensures "{" + body == ("{" + Closed(u, junk)) + rest
  {
    hide Doubled;
    assert body == body[..n] + body[n..];
    ClosedBoth(u, junk, rest);
    assert (Doubled(u) + "}") + (junk + rest) == Doubled(u) + ("}" + (junk + rest));
    assert ("{" + Closed(u, junk)) + rest == "{" + (Closed(u, junk) + rest);
  }

  lemma SettingFound(s: string, k: nat, n: nat, first: Setting, rest: string)
    requires k + n < |s| && s[k + n] == '=' && All(s[..k], Separator) && All(s[k..][..n], NotEquals)
    requires n > 0 ==> !Separator(s[k])
    requires first.gap == s[..k] && first.key == s[k..][..n] && Blanks(first.blanks) && ValueOk(first.value, rest)
    requires s[k..][n + 1..] == first.blanks + (ValueText(first.value) + rest)
    ensures SettingText(first, rest) == s && SettingOk(first, rest) && |rest| < |s|
  {
    hide ValueText, ValueOk;
    var t := s[k..];
    var after := t[n + 1..];
    assert t == t[..n] + ("=" + after);
    assert s == s[..k] + t;
    assert n > 0 ==> t[..n][0] == s[k];
  }

  lemma NoEquals(s: string, k: nat)
    requires k <= |s| && All(s[..k], Separator) && All(s[k..], NotEquals)
    ensures Lacks(s, '=')
  {
    forall i | 0 <= i < |s| ensures s[i] != '=' {
      if i < k { assert Separator(s[..k][i]); } else { assert NotEquals(s[k..][i - k]); }
    }
  }

  lemma {:induction false} LayoutFound(s: string) returns (settings: seq<Setting>, tail: string)
    ensures LayoutOk(settings, tail) && s == Layout(settings, tail)
    decreases |s|
  {
    hide ValueText, ValueOk, Run, SettingText, SettingOk;
    RunSplits(s, Separator);
    var k := Run(s, Separator);
    var t := s[k..];
    RunSplits(t, NotEquals);
    var n := Run(t, NotEquals);
    if n == |t| {
      assert t[..n] == t;
      settings, tail := [], s;
      NoEquals(s, k);
    } else {
      var blanks, v, rest := ValueFound(t[n + 1..]);
      assert t[n..] == "=" + t[n + 1..];
      var first := Setting(s[..k], t[..n], blanks, v);
      SettingFound(s, k, n, first, rest);
      settings, tail := LayoutFound(rest);
      settings := [first] + settings;
    }
  }

  /** Every string is a list of settings, and the value kept under a key is what the last setting for
      it says, whatever its spelling. */
  lemma EveryString(s: string) returns (settings: seq<Setting>, tail: string)
    ensures LayoutOk(settings, tail) && s == Layout(settings, tail)
    ensures forall q :: Get(Parse(s), q) == LastValue(settings, q, None)
  {
    settings, tail := LayoutFound(s);
    hide ReadSettings, LayoutOk, Layout, LastValue;
    forall q ensures Get(Parse(s), q) == LastValue(settings, q, None) {
      LayoutReads(settings, tail, [], q);
    }
  }

  /** And however settings are written, the last for a key is kept. */
  lemma LastWins(settings: seq<Setting>, tail: string, q: string)
    requires LayoutOk(settings, tail)
    ensures Get(Parse(Layout(settings, tail)), q) == LastValue(settings, q, None)
  {
    hide ReadSettings, LayoutOk, Layout, LastValue;
    LayoutReads(settings, tail, [], q);
  }
}
