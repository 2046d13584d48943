/** Connection strings (src/config.cpp). */
module Config {
  import opened Wrappers
  import opened Text
  import opened Scanning

  type Entry = (string, string)

  // ---------------------------------------------------------------- the settings

  const KNOWN := ["AuthType", "LoginUrl", "InstanceUrl", "ClientId", "ClientSecret", "Username", "Password",
                  "SecurityToken", "RefreshToken", "AccessToken", "PrivateKeyFile", "PrivateKeyPassword",
                  "JwtAudience", "ApiVersion", "BatchSize", "Timeout", "MaxRetries", "VerifySSL", "CABundle",
                  "ProxyUrl", "ProxyUser", "ProxyPassword", "MetadataCacheTTL", "LogFile", "LogLevel",
                  "IncludeNonQueryable"]

  /** The first listed word that equals `k` in any case, or `k` itself. */
  function Spelled(words: seq<string>, k: string): (r: string)
    ensures IEquals(r, k) && (r == k || r in words)
  {
    if words == [] then k
    else if IEquals(k, words[0]) then words[0]
    else Spelled(words[1..], k)
  }

  /** Aliases and known keys in their own spelling; other keys only lose the blanks around them. */
  function Canonical(key: string): string {
    var k := Trim(key);
    if IEquals(k, "UID") || IEquals(k, "User") then "Username"
    else if IEquals(k, "PWD") then "Password"
    else Spelled(KNOWN, k)
  }

  predicate KeyLess(a: string, b: string) {
    TextCompare(ToLower(a), ToLower(b)) < 0
  }

  /** Assignment in a map ordered without regard to case: an existing key keeps its spelling. */
  function Assign(kv: seq<Entry>, key: string, value: string): seq<Entry> {
    if kv == [] then [(key, value)]
    else if KeyLess(kv[0].0, key) then [kv[0]] + Assign(kv[1..], key, value)
    else if KeyLess(key, kv[0].0) then [(key, value)] + kv
    else [(kv[0].0, value)] + kv[1..]
  }

  predicate Sorted(kv: seq<Entry>) {
    forall i, j :: 0 <= i < j < |kv| ==> KeyLess(kv[i].0, kv[j].0)
  }

  // ---------------------------------------------------------------- reading

  predicate Separator(c: char) {
    c == ';' || IsSpace(c)
  }

  predicate NotEquals(c: char) {
    c != '='
  }

  predicate Blank(c: char) {
    c == ' '
  }

  predicate NotSemicolon(c: char) {
    c != ';'
  }

  /** The text up to the closing brace and how much of `s` it takes, brace included. */
  function Braced(s: string): (r: (string, nat))
    ensures r.1 <= |s|
  {
    if s == "" then ("", 0)
    else if s[0] == '}' then
      if |s| > 1 && s[1] == '}' then
        var (v, n) := Braced(s[2..]);
        ("}" + v, n + 2)
      else ("", 1)
    else
      var (v, n) := Braced(s[1..]);
      ([s[0]] + v, n + 1)
  }

  /** The value at the front of `s` and where the next `;` is, or the end. */
  function ReadValue(s: string): (r: (string, nat))
    ensures r.1 <= |s|
  {
    var i := Run(s, Blank);
    if i < |s| && s[i] == '{' then
      var (v, n) := Braced(s[i + 1..]);
      var j := i + 1 + n;
      (v, j + Run(s[j..], NotSemicolon))
    else
      var n := Run(s[i..], NotSemicolon);
      (Trim(s[i..i + n]), i + n)
  }

  /** The settings after those in `s` have been read into `kv`. */
  function ReadSettings(s: string, kv: seq<Entry>): seq<Entry>
    decreases |s|
  {
    var t := s[Run(s, Separator)..];
    var eq := Run(t, NotEquals);
    if eq >= |t| then kv
    else
      var key, after := Trim(t[..eq]), t[eq + 1..];
      var (value, n) := ReadValue(after);
      ReadSettings(after[n..], if key == "" then kv else Assign(kv, Canonical(key), value))
  }

  function Parse(s: string): seq<Entry> {
    ReadSettings(s, [])
  }

  // ---------------------------------------------------------------- printing

  predicate NeedsQuotes(v: string) {
    exists i :: 0 <= i < |v| && (v[i] == ';' || v[i] == '{' || v[i] == '}' || v[i] == '=' || v[i] == ' ')
  }

  /** The text with every closing brace written twice. */
  function Doubled(v: string): string {
    if v == "" then "" else (if v[0] == '}' then "}}" else [v[0]]) + Doubled(v[1..])
  }

  function Quote(v: string): string {
    if NeedsQuotes(v) then "{" + (Doubled(v) + "}") else v
  }

  predicate IsToken(e: Entry) {
    IEquals(e.0, "AccessToken")
  }

  function EntryText(e: Entry, rest: string): string {
    e.0 + ("=" + (Quote(e.1) + (";" + rest)))
  }

  function Print(kv: seq<Entry>): string {
    if kv == [] then ""
    else if IsToken(kv[0]) then Print(kv[1..])
    else EntryText(kv[0], Print(kv[1..]))
  }

  function WithoutToken(kv: seq<Entry>): seq<Entry> {
    if kv == [] then [] else (if IsToken(kv[0]) then [] else [kv[0]]) + WithoutToken(kv[1..])
  }

  // ---------------------------------------------------------------- the loops

  /** A braced text that `v`, of length `k` as written, comes before. */
  function Extended(v: string, k: nat, r: (string, nat)): (string, nat) {
    (v + r.0, k + r.1)
  }

  lemma BracedUnfolds(t: string)
    requires t != ""
    ensures Braced(t) == if t[0] != '}' then Extended([t[0]], 1, Braced(t[1..]))
                         else if |t| > 1 && t[1] == '}' then Extended("}", 2, Braced(t[2..]))
                         else ("", 1)
  {
  }

  lemma ExtendedTwice(v: string, k: nat, w: string, j: nat, r: (string, nat))
    ensures Extended(v, k, Extended(w, j, r)) == Extended(v + w, k + j, r)
  {
    assert v + (w + r.0) == (v + w) + r.0;
  }

  lemma BracedStep(s: string, i: nat, v: string, k: nat)
    requires i < |s|
    ensures Extended(v, k, Braced(s[i..])) ==
            if s[i] != '}' then Extended(v + [s[i]], k + 1, Braced(s[i + 1..]))
            else if i + 1 < |s| && s[i + 1] == '}' then Extended(v + "}", k + 2, Braced(s[i + 2..]))
            else (v, k + 1)
  {
    hide Braced, Extended;
    Dropped(s, i, 1);
    BracedUnfolds(s[i..]);
    if s[i] != '}' {
      ExtendedTwice(v, k, [s[i]], 1, Braced(s[i + 1..]));
    } else if i + 1 < |s| && s[i + 1] == '}' {
      Dropped(s, i, 2);
      ExtendedTwice(v, k, "}", 2, Braced(s[i + 2..]));
    } else {
      ExtendedNothing(v, k);
    }
  }

  lemma ExtendedNothing(v: string, k: nat)
    ensures Extended(v, k, ("", 1)) == (v, k + 1)
  {
    assert v + "" == v;
  }

  lemma BracedEnds(s: string, v: string, k: nat)
    ensures Extended("", 0, Braced(s)) == Braced(s)
    ensures s == "" ==> Extended(v, k, Braced(s)) == (v, k)
  {
    assert "" + Braced(s).0 == Braced(s).0 && v + "" == v;
  }

  method ReadBraced(s: string, start: nat) returns (value: string, i: nat)
    requires start <= |s|
    ensures (value, i) == (Braced(s[start..]).0, start + Braced(s[start..]).1)
  {
    hide Braced;
    value, i := "", start;
    BracedEnds(s[start..], "", 0);
    while i < |s|
      invariant start <= i <= |s|
      invariant Braced(s[start..]) == Extended(value, i - start, Braced(s[i..]))
    {
      BracedStep(s, i, value, i - start);
      if s[i] == '}' {
        if i + 1 < |s| && s[i + 1] == '}' {
          value, i := value + "}", i + 2;
          continue;
        }
        return value, i + 1;
      }
      value, i := value + [s[i]], i + 1;
    }
    BracedEnds(s[i..], value, i - start);
  }

  method ReadValueAt(s: string, start: nat) returns (value: string, i: nat)
    requires start <= |s|
    ensures (value, i) == (ReadValue(s[start..]).0, start + ReadValue(s[start..]).1)
  {
    hide Run, Braced, Trim;
    i := SkipRun(s, start, Blank);
    Dropped(s, start, i - start);
    if i < |s| && s[i] == '{' {
      Dropped(s, start, i + 1 - start);
      value, i := ReadBraced(s, i + 1);
      Dropped(s, start, i - start);
      i := SkipRun(s, i, NotSemicolon);
    } else {
      var semi := SkipRun(s, i, NotSemicolon);
      assert s[start..][i - start..semi - start] == s[i..semi];
      value := Trim(s[i..semi]);
      i := semi;
    }
  }

  method ParseSettings(s: string) returns (kv: seq<Entry>)
    ensures kv == Parse(s)
  {
    hide Run, ReadValue, Assign, Canonical, Trim;
    kv := [];
    var i := 0;
    assert s[0..] == s;
    while i < |s|
      invariant i <= |s| && ReadSettings(s[i..], kv) == Parse(s)
      decreases |s| - i
    {
      var start := SkipRun(s, i, Separator);
      Dropped(s, i, start - i);
      var eq := SkipRun(s, start, NotEquals);
      if eq >= |s| { return; }
      Dropped(s, start, eq - start);
      var key := Trim(s[start..eq]);
      Dropped(s, start, eq + 1 - start);
      var value, next := ReadValueAt(s, eq + 1);
      Dropped(s, eq + 1, next - (eq + 1));
      if key != "" { kv := Assign(kv, Canonical(key), value); }
      i := next;
    }
    NothingRead(s[i..], kv);
  }

  lemma NothingRead(s: string, kv: seq<Entry>)
    requires s == ""
    ensures ReadSettings(s, kv) == kv
  {
  }

  method QuoteValue(v: string) returns (out: string)
    ensures out == Quote(v)
  {
    if !NeedsQuotes(v) { return v; }
    out := "{";
    var i := 0;
    while i < |v|
      invariant i <= |v| && "{" + (Doubled(v) + "}") == out + (Doubled(v[i..]) + "}")
    {
      assert v[i..][1..] == v[i + 1..];
      out := out + [v[i]];
      if v[i] == '}' { out := out + "}"; }
      i := i + 1;
    }
    out := out + "}";
  }

  method ToConnectionString(kv: seq<Entry>) returns (out: string)
    ensures out == Print(kv)
  {
    hide Quote, IsToken;
    out := "";
    var i := 0;
    while i < |kv|
      invariant i <= |kv| && Print(kv) == out + Print(kv[i..])
    {
      assert kv[i..][1..] == kv[i + 1..];
      if IsToken(kv[i]) { i := i + 1; continue; }
      var q := QuoteValue(kv[i].1);
      EntryJoined(out, kv[i], Print(kv[i + 1..]));
      out := out + (kv[i].0 + ("=" + (q + ";")));
      i := i + 1;
    }
    assert out + "" == out;
  }

  lemma EntryJoined(out: string, e: Entry, rest: string)
    ensures out + EntryText(e, rest) == (out + (e.0 + ("=" + (Quote(e.1) + ";")))) + rest
  {
  }

  // ---------------------------------------------------------------- reading back what was printed

  /** The doubled text, the closing brace and what follows. */
  function Closed(v: string, rest: string): string {
    Doubled(v) + ("}" + rest)
  }

  lemma ClosedShape(v: string, rest: string)
    ensures v == "" ==> Closed(v, rest) == "}" + rest
    ensures v != "" ==> Closed(v, rest) == (if v[0] == '}' then "}}" else [v[0]]) + Closed(v[1..], rest)
    ensures Closed(v, rest)[|Doubled(v)| + 1..] == rest
  {
  }

  lemma {:induction false} BracedReads(v: string, rest: string)
    requires rest == "" || rest[0] != '}'
    ensures Braced(Closed(v, rest)) == (v, |Doubled(v)| + 1)
  {
    hide Braced, Closed;
    var s := Closed(v, rest);
    ClosedShape(v, rest);
    BracedUnfolds(s);
    if v != "" {
      BracedReads(v[1..], rest);
      assert [v[0]] + v[1..] == v;
      var tail := Closed(v[1..], rest);
      if v[0] == '}' {
        assert s[2..] == tail;
      } else {
        assert s[1..] == tail;
      }
    }
  }

  /** What reading a printed value gives. */
  function ReadBack(v: string): string {
    if NeedsQuotes(v) then v else Trim(v)
  }

  lemma BareReads(v: string, rest: string)
    requires !NeedsQuotes(v)
    ensures ReadValue(v + (";" + rest)) == (Trim(v), |v|)
  {
    var s := v + (";" + rest);
    assert Run(s, Blank) == 0 by { RunOver("", s, Blank); assert "" + s == s; }
    assert s[0..] == s;
    RunOver(v, ";" + rest, NotSemicolon);
    assert s[0..|v|] == v;
  }

  lemma QuotedReads(v: string, rest: string)
    ensures ReadValue("{" + Closed(v, ";" + rest)) == (v, |Doubled(v)| + 2)
  {
    hide Braced, Closed;
    var body := Closed(v, ";" + rest);
    var s, n := "{" + body, |Doubled(v)| + 1;
    assert Run(s, Blank) == 0;
    assert s[1..] == body;
    BracedReads(v, ";" + rest);
    ClosedShape(v, ";" + rest);
    Dropped(s, 1, n);
    assert Run(";" + rest, NotSemicolon) == 0;
  }

  lemma ValueReads(v: string, rest: string)
    ensures ReadValue(Quote(v) + (";" + rest)) == (ReadBack(v), |Quote(v)|)
    ensures (Quote(v) + (";" + rest))[|Quote(v)|..] == ";" + rest
  {
    hide ReadValue, Trim;
    if NeedsQuotes(v) {
      QuotedReads(v, rest);
      assert ("{" + (Doubled(v) + "}")) + (";" + rest) == "{" + Closed(v, ";" + rest);
    } else {
      BareReads(v, rest);
    }
  }

  /** Keys as the driver keeps them: canonical, and not mistaken for a separator when written. */
  predicate KeyOk(k: string) {
    k != "" && All(k, NotEquals) && !Separator(k[0]) && Trimmed(k) && Canonical(k) == k
  }

  lemma SameStart(a: string, b: string, kv: seq<Entry>)
    requires a[Run(a, Separator)..] == b[Run(b, Separator)..]
    ensures ReadSettings(a, kv) == ReadSettings(b, kv)
  {
    hide Run, ReadValue, Assign, Canonical, Trim;
  }

  lemma SeparatorSkipped(rest: string, kv: seq<Entry>)
    ensures ReadSettings(";" + rest, kv) == ReadSettings(rest, kv)
  {
    hide ReadSettings;
    var s, i := ";" + rest, Run(rest, Separator);
    assert s[1..] == rest;
    assert Run(s, Separator) == 1 + i;
    Dropped(s, 1, i);
    SameStart(s, rest, kv);
  }

  lemma NoSeparator(s: string)
    requires s != "" && !Separator(s[0])
    ensures s[Run(s, Separator)..] == s
  {
  }

  /** A key, its `=` and what comes after. */
  lemma KeySplits(k: string, after: string)
    ensures var t := k + ("=" + after);
            (All(k, NotEquals) ==> Run(t, NotEquals) == |k|) && |k| < |t| && t[..|k|] == k && t[|k| + 1..] == after
  {
    var t := k + ("=" + after);
    if All(k, NotEquals) { RunOver(k, "=" + after, NotEquals); }
  }

  /** A key before it is made canonical: one that can be written in front of `=`. */
  predicate KeyText(k: string) {
    k != "" && All(k, NotEquals) && !Separator(k[0]) && Trimmed(k)
  }

  lemma WrittenReads(e: Entry, rest: string, kv: seq<Entry>)
    requires KeyText(e.0)
    ensures ReadSettings(EntryText(e, rest), kv) == ReadSettings(rest, Assign(kv, Canonical(e.0), ReadBack(e.1)))
  {
    hide ReadValue, Assign, Trim, Quote, ReadBack, Canonical, Run;
    var k, after := e.0, Quote(e.1) + (";" + rest);
    var s := EntryText(e, rest);
    KeySplits(k, after);
    assert s[0] == k[0];
    NoSeparator(s);
    TrimTrims(k);
    ValueReads(e.1, rest);
    SeparatorSkipped(rest, Assign(kv, Canonical(k), ReadBack(e.1)));
  }

  lemma SettingReads(e: Entry, rest: string, kv: seq<Entry>)
    requires KeyOk(e.0)
    ensures ReadSettings(EntryText(e, rest), kv) == ReadSettings(rest, Assign(kv, e.0, ReadBack(e.1)))
  {
    WrittenReads(e, rest, kv);
    hide ReadSettings, Assign, ReadBack, EntryText;
  }

  /** A value is written as it stands exactly when it has no delimiter, brace, equals sign or blank;
      otherwise in braces, each closing one twice. */
  lemma QuoteIs(v: string)
    ensures Quote(v) == v <==>
            forall i :: 0 <= i < |v| ==> v[i] != ';' && v[i] != '{' && v[i] != '}' && v[i] != '=' && v[i] != ' '
    ensures Quote(v) != v ==> Quote(v) == "{" + (Doubled(v) + "}")
  {
    DoubledLength(v);
  }

  lemma {:induction false} DoubledLength(v: string)
    ensures |Doubled(v)| >= |v|
  {
    if v != "" { DoubledLength(v[1..]); }
  }

  // ---------------------------------------------------------------- which key, which value

  /** `UID` and `User` mean Username, `PWD` Password, in any case; a known name means itself in any
      case; any other key stays as it is, without the blanks around it. */
  lemma KeyMeans(key: string)
    ensures var k := Trim(key);
            var known := ["AuthType", "LoginUrl", "InstanceUrl", "ClientId", "ClientSecret", "Username", "Password",
                          "SecurityToken", "RefreshToken", "AccessToken", "PrivateKeyFile", "PrivateKeyPassword",
                          "JwtAudience", "ApiVersion", "BatchSize", "Timeout", "MaxRetries", "VerifySSL", "CABundle",
                          "ProxyUrl", "ProxyUser", "ProxyPassword", "MetadataCacheTTL", "LogFile", "LogLevel",
                          "IncludeNonQueryable"];
            if IEquals(k, "uid") || IEquals(k, "user") then Canonical(key) == "Username"
            else if IEquals(k, "pwd") then Canonical(key) == "Password"
            else IEquals(Canonical(key), k) &&
                 if exists i :: 0 <= i < |known| && IEquals(k, known[i]) then Canonical(key) in known
                 else Canonical(key) == k
  {
    var k := Trim(key);
    AliasCase();
    hide Trim, ToLower, Lower;
    SpelledIsListed(KNOWN, k);
  }

  lemma AliasCase()
    ensures ToLower("UID") == ToLower("uid") && ToLower("User") == ToLower("user") && ToLower("PWD") == ToLower("pwd")
  {
  }

  lemma {:induction false} SpelledIsListed(words: seq<string>, k: string)
    ensures if exists i :: 0 <= i < |words| && IEquals(k, words[i]) then Spelled(words, k) in words
            else Spelled(words, k) == k
  {
    hide IEquals;
    if words != [] && !IEquals(k, words[0]) {
      SpelledIsListed(words[1..], k);
      if i :| 0 <= i < |words| && IEquals(k, words[i]) {
        assert words[1..][i - 1] == words[i];
      }
      if i :| 0 <= i < |words[1..]| && IEquals(k, words[1..][i]) {
        assert words[i + 1] == words[1..][i];
      }
    }
  }

  /** The value under a key, whatever its case. */
  function Get(kv: seq<Entry>, key: string): (r: Option<string>)
    ensures r.Some? ==> exists i :: 0 <= i < |kv| && IEquals(kv[i].0, key) && kv[i].1 == r.value
    ensures r.None? ==> forall i :: 0 <= i < |kv| ==> !IEquals(kv[i].0, key)
  {
    if kv == [] then None else if IEquals(kv[0].0, key) then Some(kv[0].1) else Get(kv[1..], key)
  }

  lemma KeysApart(a: string, b: string)
    ensures IEquals(a, b) <==> !KeyLess(a, b) && !KeyLess(b, a)
  {
    TextCompareOrders(ToLower(a), ToLower(b));
    TextCompareOrders(ToLower(b), ToLower(a));
  }

  lemma {:induction false} AssignGets(kv: seq<Entry>, key: string, value: string, q: string)
    ensures Get(Assign(kv, key, value), q) == if IEquals(q, key) then Some(value) else Get(kv, q)
  {
    hide KeyLess;
    if kv != [] {
      KeysApart(kv[0].0, key);
      if KeyLess(kv[0].0, key) { AssignGets(kv[1..], key, value, q); }
    }
  }

  // ---------------------------------------------------------------- the whole string

  predicate Good(kv: seq<Entry>) {
    Sorted(kv) && forall i :: 0 <= i < |kv| ==> KeyOk(kv[i].0)
  }

  function Mapped(kv: seq<Entry>): seq<Entry> {
    if kv == [] then [] else [(kv[0].0, ReadBack(kv[0].1))] + Mapped(kv[1..])
  }

  lemma {:induction false} AssignLast(kv: seq<Entry>, key: string, value: string)
    requires forall i :: 0 <= i < |kv| ==> KeyLess(kv[i].0, key)
    ensures Assign(kv, key, value) == kv + [(key, value)]
  {
    hide KeyLess;
    if kv != [] { AssignLast(kv[1..], key, value); }
  }

  predicate AllBefore(a: seq<Entry>, b: seq<Entry>) {
    forall i, j :: 0 <= i < |a| && 0 <= j < |b| ==> KeyLess(a[i].0, b[j].0)
  }

  lemma {:induction false} PrintReads(kv: seq<Entry>, before: seq<Entry>)
    requires Good(kv) && AllBefore(before, kv)
    ensures ReadSettings(Print(kv), before) == before + Mapped(WithoutToken(kv))
  {
    hide KeyLess, KeyOk, ReadBack, EntryText, IsToken, Assign, ReadSettings;
    if kv == [] {
      NothingRead("", before);
      assert before + [] == before;
    } else {
      var e, rest := kv[0], kv[1..];
      assert Good(rest);
      if IsToken(e) {
        assert WithoutToken(kv) == [] + WithoutToken(rest) == WithoutToken(rest);
        PrintReads(rest, before);
      } else {
        var e' := (e.0, ReadBack(e.1));
        SettingReads(e, Print(rest), before);
        AssignLast(before, e.0, ReadBack(e.1));
        PrintReads(rest, before + [e']);
        assert WithoutToken(kv) == [e] + WithoutToken(rest);
        assert ([e] + WithoutToken(rest))[1..] == WithoutToken(rest);
        assert (before + [e']) + Mapped(WithoutToken(rest)) == before + ([e'] + Mapped(WithoutToken(rest)));
      }
    }
  }

  /** Written without quotes, a value keeps its text unless it starts or ends with a tab, carriage
      return or line feed. */
  predicate Survives(v: string) {
    NeedsQuotes(v) || Trimmed(v)
  }

  lemma {:induction false} MappedSame(kv: seq<Entry>)
    ensures Mapped(kv) == kv <==> forall i :: 0 <= i < |kv| ==> Survives(kv[i].1)
  {
    hide NeedsQuotes, Trimmed, Trim;
    if kv != [] {
      MappedSame(kv[1..]);
      TrimTrims(kv[0].1);
      assert kv == [kv[0]] + kv[1..];
      assert Mapped(kv)[0] == (kv[0].0, ReadBack(kv[0].1)) && Mapped(kv)[1..] == Mapped(kv[1..]);
      if forall i :: 0 <= i < |kv| ==> Survives(kv[i].1) {
        forall i | 0 <= i < |kv[1..]| ensures Survives(kv[1..][i].1) { assert kv[1..][i] == kv[i + 1]; }
      }
      if Mapped(kv) == kv {
        forall i | 0 <= i < |kv| ensures Survives(kv[i].1) {
          if i > 0 { assert kv[1..][i - 1] == kv[i]; }
        }
      }
    }
  }

  // ---------------------------------------------------------------- what parsing keeps

  lemma {:induction false} LessTransitive(a: string, b: string, c: string)
    requires TextCompare(a, b) < 0 && TextCompare(b, c) < 0
    ensures TextCompare(a, c) < 0
  {
    if a != "" && b != "" && c != "" && a[0] == b[0] == c[0] { LessTransitive(a[1..], b[1..], c[1..]); }
  }

  lemma KeyLessTransitive(a: string, b: string, c: string)
    requires KeyLess(a, b) && KeyLess(b, c)
    ensures KeyLess(a, c)
  {
    LessTransitive(ToLower(a), ToLower(b), ToLower(c));
  }

  predicate HasKey(kv: seq<Entry>, k: string) {
    exists i :: 0 <= i < |kv| && kv[i].0 == k
  }

  lemma {:induction false} AssignKeeps(kv: seq<Entry>, key: string, value: string)
    requires Good(kv) && KeyOk(key)
    ensures Good(Assign(kv, key, value))
    ensures forall k :: HasKey(Assign(kv, key, value), k) ==> k == key || HasKey(kv, k)
  {
    hide KeyOk, KeyLess;
    var r := Assign(kv, key, value);
    if kv == [] {
    } else if KeyLess(kv[0].0, key) {
      assert Good(kv[1..]);
      AssignKeeps(kv[1..], key, value);
      var tail := Assign(kv[1..], key, value);
      assert r == [kv[0]] + tail;
      forall j | 0 <= j < |tail| ensures KeyLess(kv[0].0, tail[j].0) {
        assert HasKey(tail, tail[j].0);
        if tail[j].0 != key {
          var i :| 0 <= i < |kv[1..]| && kv[1..][i].0 == tail[j].0;
          assert kv[i + 1] == kv[1..][i];
        }
      }
      forall k | HasKey(r, k) ensures k == key || HasKey(kv, k) {
        var i :| 0 <= i < |r| && r[i].0 == k;
        if i > 0 && k != key {
          assert HasKey(tail, tail[i - 1].0);
          var m :| 0 <= m < |kv[1..]| && kv[1..][m].0 == k;
          assert kv[m + 1] == kv[1..][m];
        }
      }
    } else if KeyLess(key, kv[0].0) {
      forall j | 0 <= j < |kv| ensures KeyLess(key, kv[j].0) {
        if j > 0 { KeyLessTransitive(key, kv[0].0, kv[j].0); }
      }
    } else {
      assert forall i :: 0 <= i < |kv| ==> r[i].0 == kv[i].0;
    }
  }

  predicate Word(w: string) {
    w != "" && All(w, IsAlpha)
  }

  lemma WordIsKey(w: string)
    requires Word(w)
    ensures All(w, NotEquals) && !Separator(w[0]) && Trimmed(w)
  {
  }

  lemma ConnectionWords()
    ensures Word("AuthType") && Word("LoginUrl") && Word("InstanceUrl") && Word("ClientId") && Word("ClientSecret")
    ensures Word("Username") && Word("Password") && Word("SecurityToken") && Word("RefreshToken") && Word("AccessToken")
  {
  }

  lemma SettingWords()
    ensures Word("PrivateKeyFile") && Word("PrivateKeyPassword") && Word("JwtAudience") && Word("ApiVersion")
    ensures Word("BatchSize") && Word("Timeout") && Word("MaxRetries") && Word("VerifySSL") && Word("CABundle")
  {
  }

  lemma ProxyAndLogWords()
    ensures Word("ProxyUrl") && Word("ProxyUser") && Word("ProxyPassword") && Word("MetadataCacheTTL")
    ensures Word("LogFile") && Word("LogLevel") && Word("IncludeNonQueryable")
  {
  }

  lemma KnownWords()
    ensures forall i :: 0 <= i < |KNOWN| ==> Word(KNOWN[i])
  {
    hide Word;
    ConnectionWords();
    SettingWords();
    ProxyAndLogWords();
  }

  lemma {:induction false} SpelledTwice(words: seq<string>, k: string)
    ensures Spelled(words, Spelled(words, k)) == Spelled(words, k)
  {
    if words != [] && !IEquals(k, words[0]) {
      SpelledTwice(words[1..], k);
    }
  }

  lemma {:induction false} SpelledAt(words: seq<string>, k: string, n: nat)
    requires n < |words| && words[n] == k && forall i :: 0 <= i < n ==> !IEquals(k, words[i])
    ensures Spelled(words, k) == k
  {
    if n > 0 { SpelledAt(words[1..], k, n - 1); }
  }

  lemma AliasTargets()
    ensures KeyOk("Username") && KeyOk("Password")
  {
    KnownWords();
    assert KNOWN[5] == "Username" && KNOWN[6] == "Password";
    WordIsKey("Username");
    WordIsKey("Password");
    TrimTrims("Username");
    TrimTrims("Password");
    UsernameSpelled();
    PasswordSpelled();
    Differ("Username", "UID");
    Differ("Username", "User");
    Differ("Username", "PWD");
    Differ("Password", "UID");
    Differ("Password", "User");
    Differ("Password", "PWD");
  }

  lemma UsernameSpelled()
    ensures Spelled(KNOWN, "Username") == "Username"
  {
    Differ("Username", "AuthType");
    Differ("Username", "LoginUrl");
    Differ("Username", "InstanceUrl");
    Differ("Username", "ClientId");
    Differ("Username", "ClientSecret");
    SpelledAt(KNOWN, "Username", 5);
  }

  lemma PasswordSpelled()
    ensures Spelled(KNOWN, "Password") == "Password"
  {
    Differ("Password", "AuthType");
    Differ("Password", "LoginUrl");
    Differ("Password", "InstanceUrl");
    Differ("Password", "ClientId");
    Differ("Password", "ClientSecret");
    Differ("Password", "Username");
    SpelledAt(KNOWN, "Password", 6);
  }

  lemma CanonicalIsKey(k: string)
    requires KeyText(k)
    ensures KeyOk(Canonical(k))
  {
    hide Spelled, KNOWN, IEquals;
    TrimTrims(k);
    if IEquals(k, "UID") || IEquals(k, "User") || IEquals(k, "PWD") {
      AliasTargets();
    } else {
      var w := Spelled(KNOWN, k);
      SpelledTwice(KNOWN, k);
      SameInAnyCase(w, k);
      if w != k {
        KnownWords();
        var i :| 0 <= i < |KNOWN| && KNOWN[i] == w;
        WordIsKey(w);
      }
      TrimTrims(w);
    }
  }

  lemma SameInAnyCase(a: string, b: string)
    requires IEquals(a, b)
    ensures forall c :: IEquals(a, c) == IEquals(b, c)
  {
  }

  lemma KeyRead(t: string, n: nat)
    requires t != "" && !Separator(t[0]) && n == Run(t, NotEquals) && Trim(t[..n]) != ""
    ensures KeyText(Trim(t[..n]))
  {
    var raw := t[..n];
    var k := Trim(raw);
    TrimTrims(raw);
    RunHolds(t, NotEquals);
    assert TrimLeft(raw) == raw;
    TrimRightKeepsStart(raw);
    assert k <= raw && k[0] == raw[0];
  }

  lemma {:induction false} RunHolds(s: string, p: char -> bool)
    ensures All(s[..Run(s, p)], p)
    ensures Run(s, p) < |s| ==> !p(s[Run(s, p)])
  {
    if s != "" && p(s[0]) {
      RunHolds(s[1..], p);
      assert s[..Run(s, p)] == [s[0]] + s[1..][..Run(s[1..], p)];
    }
  }

  lemma {:induction false} SettingsGood(s: string, kv: seq<Entry>)
    requires Good(kv)
    ensures Good(ReadSettings(s, kv))
    decreases |s|
  {
    hide Run, ReadValue, Assign, Canonical, Trim, Good;
    var t := s[Run(s, Separator)..];
    var eq := Run(t, NotEquals);
    if eq < |t| {
      RunHolds(s, Separator);
      var key, after := Trim(t[..eq]), t[eq + 1..];
      var (value, n) := ReadValue(after);
      if key == "" {
        SettingsGood(after[n..], kv);
      } else {
        KeyRead(t, eq);
        CanonicalIsKey(key);
        AssignKeeps(kv, Canonical(key), value);
        SettingsGood(after[n..], Assign(kv, Canonical(key), value));
      }
    }
  }

  /** Printing the settings read from any string and reading them again gives the same settings
      without AccessToken exactly when no other value that can be written without quotes starts or
      ends with a tab, carriage return or line feed. */
  lemma RoundTrip(s: string)
    ensures var kv := WithoutToken(Parse(s));
            Parse(Print(Parse(s))) == kv <==> forall i :: 0 <= i < |kv| ==> Survives(kv[i].1)
  {
    hide Good, ReadSettings, Print, WithoutToken, Mapped, Survives;
    assert Good([]) by { NothingGood(); }
    SettingsGood(s, []);
    PrintReads(Parse(s), []);
    assert [] + Mapped(WithoutToken(Parse(s))) == Mapped(WithoutToken(Parse(s)));
    MappedSame(WithoutToken(Parse(s)));
  }

  lemma NothingGood()
    ensures Good([])
  {
  }

  lemma NotToken()
    ensures !IsToken(("Username", "a\t"))
  {
    Differ("Username", "AccessToken");
  }

  lemma TabTrimmed()
    ensures ReadBack("a\t") == "a"
  {
    assert TrimLeft("a\t") == "a\t";
    assert "a\t"[..1] == "a" && TrimRight("a\t") == TrimRight("a");
  }

  lemma BracedAlone()
    ensures ReadValue("{a\t}") == ("a\t", 4) && "{a\t}"[4..] == ""
  {
    hide Braced;
    var s := "{a\t}";
    assert Run(s, Blank) == 0;
    assert Doubled("a\t") == "a\t" by { assert "a\t"[1..] == "\t" && "\t"[1..] == ""; }
    assert s[1..] == Closed("a\t", "");
    BracedReads("a\t", "");
    assert s[4..] == "";
    assert Run(s[4..], NotSemicolon) == 0;
  }

  lemma KeyIsRead(k: string, after: string)
    requires KeyOk(k)
    ensures var (value, n) := ReadValue(after);
            ReadSettings(k + ("=" + after), []) == ReadSettings(after[n..], [(k, value)])
  {
    hide Run, ReadValue, Canonical, Trim;
    KeySplits(k, after);
    NoSeparator(k + ("=" + after));
    TrimTrims(k);
  }

  lemma TabIsRead()
    ensures Parse("Username={a\t}") == [("Username", "a\t")]
  {
    hide ReadSettings, ReadValue, KeyOk;
    AliasTargets();
    KeyIsRead("Username", "{a\t}");
    assert "Username" + ("=" + "{a\t}") == "Username={a\t}";
    BracedAlone();
    NothingRead("", [("Username", "a\t")]);
  }

  lemma OneGood(e: Entry)
    requires KeyOk(e.0) && !IsToken(e)
    ensures Good([e]) && WithoutToken([e]) == [e] && Mapped([e]) == [(e.0, ReadBack(e.1))]
  {
    hide KeyOk, IsToken, ReadBack;
    assert [e] + [] == [e];
    assert [(e.0, ReadBack(e.1))] + [] == [(e.0, ReadBack(e.1))];
  }

  /** A value that does not survive: a trailing tab, read in braces, needs no quotes when written
      and is trimmed when read again. */
  lemma TabIsLost()
    ensures Parse("Username={a\t}") == [("Username", "a\t")]
    ensures Parse(Print([("Username", "a\t")])) == [("Username", "a")]
  {
    hide Parse, Print, Good, WithoutToken, Mapped, ReadBack, KeyOk, IsToken;
    var e := ("Username", "a\t");
    TabIsRead();
    AliasTargets();
    NotToken();
    OneGood(e);
    TabTrimmed();
    OneReads(e);
  }

  lemma OneReads(e: Entry)
    requires Good([e]) && WithoutToken([e]) == [e] && Mapped([e]) == [(e.0, ReadBack(e.1))]
    ensures Parse(Print([e])) == [(e.0, ReadBack(e.1))]
  {
    hide Print, Good, WithoutToken, Mapped, ReadBack, ReadSettings;
    PrintReads([e], []);
    assert [] + [(e.0, ReadBack(e.1))] == [(e.0, ReadBack(e.1))];
  }
}
