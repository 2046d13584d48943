/** ODBC search patterns (src/util.cpp). */
module Like {
  import opened Text

  // ---------------------------------------------------------------- what a pattern means

  datatype Item = AnyRun | AnyOne | Exact(c: char)

  /** `%`, `_`, a backslash escape, or the character itself; a trailing backslash is itself. */
  function Items(p: string): seq<Item> {
    if p == "" then []
    else if p[0] == '\\' && |p| > 1 then [Exact(p[1])] + Items(p[2..])
    else if p[0] == '%' then [AnyRun] + Items(p[1..])
    else if p[0] == '_' then [AnyOne] + Items(p[1..])
    else [Exact(p[0])] + Items(p[1..])
  }

  /** The texts one item stands for. */
  predicate Fits(item: Item, part: string) {
    match item
    case AnyRun => true
    case AnyOne => |part| == 1
    case Exact(c) => |part| == 1 && Lower(part[0]) == Lower(c)
  }

  function Joined(parts: seq<string>): string {
    if parts == [] then "" else parts[0] + Joined(parts[1..])
  }

  ghost predicate Explains(items: seq<Item>, parts: seq<string>, v: string) {
    |parts| == |items| && Joined(parts) == v && forall i :: 0 <= i < |items| ==> Fits(items[i], parts[i])
  }

  /** A value has the pattern when it can be cut into consecutive parts, one for each item. */
  ghost predicate Accepts(items: seq<Item>, v: string) {
    exists parts :: Explains(items, parts, v)
  }

  // ---------------------------------------------------------------- item by item

  lemma AcceptsEmpty(v: string)
    ensures Accepts([], v) <==> v == ""
  {
    assert v == "" ==> Explains([], [], v);
  }

  lemma AcceptsSplit(items: seq<Item>, v: string, k: nat)
    requires items != [] && k <= |v| && Fits(items[0], v[..k]) && Accepts(items[1..], v[k..])
    ensures Accepts(items, v)
  {
    var parts :| Explains(items[1..], parts, v[k..]);
    var all := [v[..k]] + parts;
    assert all[1..] == parts;
    assert v[..k] + v[k..] == v;
    assert Explains(items, all, v);
  }

  lemma SplitAccepts(items: seq<Item>, v: string) returns (k: nat)
    requires items != [] && Accepts(items, v)
    ensures k <= |v| && Fits(items[0], v[..k]) && Accepts(items[1..], v[k..])
  {
    var parts :| Explains(items, parts, v);
    k := |parts[0]|;
    assert v[..k] == parts[0] && v[k..] == Joined(parts[1..]);
    assert Explains(items[1..], parts[1..], v[k..]);
  }

  lemma AcceptsOne(items: seq<Item>, v: string)
    requires items != [] && !items[0].AnyRun?
    ensures Accepts(items, v) <==> v != "" && Fits(items[0], v[..1]) && Accepts(items[1..], v[1..])
  {
    if Accepts(items, v) {
      var k := SplitAccepts(items, v);
    }
    if v != "" && Fits(items[0], v[..1]) && Accepts(items[1..], v[1..]) {
      AcceptsSplit(items, v, 1);
    }
  }

  lemma AcceptsRun(items: seq<Item>, v: string)
    requires items != [] && items[0].AnyRun?
    ensures Accepts(items, v) <==> exists k :: 0 <= k <= |v| && Accepts(items[1..], v[k..])
  {
    if Accepts(items, v) {
      var k := SplitAccepts(items, v);
    }
    if k :| 0 <= k <= |v| && Accepts(items[1..], v[k..]) {
      AcceptsSplit(items, v, k);
    }
  }

  /** Adjacent `%` collapse. */
  lemma RunsCollapse(rest: seq<Item>, v: string)
    ensures Accepts([AnyRun] + ([AnyRun] + rest), v) <==> Accepts([AnyRun] + rest, v)
  {
    var one, two := [AnyRun] + rest, [AnyRun] + ([AnyRun] + rest);
    AcceptsRun(two, v);
    AcceptsRun(one, v);
    assert two[1..] == one && one[1..] == rest;
    if Accepts(two, v) {
      var k :| 0 <= k <= |v| && Accepts(one, v[k..]);
      AcceptsRun(one, v[k..]);
      var j :| 0 <= j <= |v[k..]| && Accepts(rest, v[k..][j..]);
      assert v[k..][j..] == v[k + j..];
    }
    if Accepts(one, v) {
      assert v[0..] == v;
    }
  }

  // ---------------------------------------------------------------- how patterns are written

  /** A way to write an item: a character may have a backslash in front, and a wildcard or a backslash
      that stands for itself must. */
  predicate Writes(item: Item, text: string) {
    match item
    case AnyRun => text == "%"
    case AnyOne => text == "_"
    case Exact(c) => text == ['\\', c] || (text == [c] && c != '%' && c != '_' && c != '\\')
  }

  predicate Written(items: seq<Item>, texts: seq<string>) {
    |texts| == |items| && forall i :: 0 <= i < |items| ==> Writes(items[i], texts[i])
  }

  /** A pattern means the items it is written with, however the characters among them are escaped; a
      backslash with nothing behind it stands for itself. */
  lemma {:induction false} PatternsRead(items: seq<Item>, texts: seq<string>)
    requires Written(items, texts)
    ensures Items(Joined(texts)) == items
    ensures Items(Joined(texts) + "\\") == items + [Exact('\\')]
  {
    if items == [] {
      assert "" + "\\" == "\\";
    } else {
      forall i | 0 <= i < |items[1..]| ensures Writes(items[1..][i], texts[1..][i]) {
        assert Writes(items[i + 1], texts[i + 1]);
      }
      PatternsRead(items[1..], texts[1..]);
      ItemRead(items[0], texts[0], Joined(texts[1..]));
      ItemRead(items[0], texts[0], Joined(texts[1..]) + "\\");
      assert Joined(texts) + "\\" == texts[0] + (Joined(texts[1..]) + "\\");
      assert [items[0]] + (items[1..] + [Exact('\\')]) == items + [Exact('\\')];
    }
  }

  lemma ItemRead(item: Item, text: string, rest: string)
    requires Writes(item, text)
    ensures Items(text + rest) == [item] + Items(rest)
  {
    assert (text + rest)[|text|..] == rest;
  }

  /** A pattern of single characters accepts just the texts that agree with it letter by letter, those
      of A to Z in either case, and any character where it has `_`. */
  lemma {:induction false} LettersMatch(items: seq<Item>, v: string)
    requires forall i :: 0 <= i < |items| ==> !items[i].AnyRun?
    ensures Accepts(items, v) <==>
            |v| == |items| && forall i :: 0 <= i < |items| && items[i].Exact? ==> SameLetter(items[i].c, v[i])
    decreases items
  {
    if items == [] {
      AcceptsEmpty(v);
    } else {
      AcceptsOne(items, v);
      if v != "" {
        FirstLetter(items[0], v[0]);
        LettersMatch(items[1..], v[1..]);
        assert forall i :: 0 <= i < |items| - 1 ==> items[1..][i] == items[i + 1];
        assert forall i :: 0 <= i < |v| - 1 ==> v[1..][i] == v[i + 1];
        if Accepts(items, v) {
          forall i | 0 <= i < |items| && items[i].Exact? ensures SameLetter(items[i].c, v[i]) {
            if i > 0 { assert items[1..][i - 1].Exact? && SameLetter(items[1..][i - 1].c, v[1..][i - 1]); }
          }
        }
      }
    }
  }

  lemma FirstLetter(item: Item, c: char)
    requires !item.AnyRun?
    ensures Fits(item, [c]) <==> item.AnyOne? || SameLetter(item.c, c)
  {
  }

  // ---------------------------------------------------------------- the matcher

  method LikeImpl(p: string, pi0: nat, v: string, vi0: nat) returns (matched: bool)
    requires pi0 <= |p| && vi0 <= |v|
    ensures matched <==> Accepts(Items(p[pi0..]), v[vi0..])
    decreases |p| - pi0, 0
  {
    var pi, vi := pi0, vi0;
    while pi < |p|
      invariant pi0 <= pi <= |p| && vi0 <= vi <= |v|
      invariant Accepts(Items(p[pi0..]), v[vi0..]) <==> Accepts(Items(p[pi..]), v[vi..])
    {
      var c := p[pi];
      ghost var items, rest := Items(p[pi..]), v[vi..];
      assert p[pi..][1..] == p[pi + 1..];
      assert vi < |v| ==> rest[1..] == v[vi + 1..] && rest[0] == v[vi];
      if c == '\\' && pi + 1 < |p| {
        assert p[pi..][2..] == p[pi + 2..] && items[1..] == Items(p[pi + 2..]);
        AcceptsOne(items, rest);
        if vi >= |v| || Lower(p[pi + 1]) != Lower(v[vi]) { return false; }
        pi, vi := pi + 2, vi + 1;
      } else if c == '%' {
        ghost var start := pi;
        pi := SkipRuns(p, pi, rest);
        if pi == |p| {
          AcceptsRun([AnyRun], rest);
          AcceptsEmpty(rest[|rest|..]);
          assert Items(p[pi..]) == [] && [AnyRun] + [] == [AnyRun];
          return true;
        }
        matched := TryFrom(p, pi, v, vi);
        return;
      } else if c == '_' {
        assert items[1..] == Items(p[pi + 1..]);
        AcceptsOne(items, rest);
        if vi >= |v| { return false; }
        pi, vi := pi + 1, vi + 1;
      } else {
        assert items[1..] == Items(p[pi + 1..]);
        AcceptsOne(items, rest);
        if vi >= |v| || Lower(c) != Lower(v[vi]) { return false; }
        pi, vi := pi + 1, vi + 1;
      }
    }
    AcceptsEmpty(v[vi..]);
    matched := vi == |v|;
  }

  /** Past a run of `%`. */
  method SkipRuns(p: string, start: nat, ghost v: string) returns (pi: nat)
    requires start < |p| && p[start] == '%'
    ensures start < pi <= |p|
    ensures Accepts(Items(p[start..]), v) <==> Accepts([AnyRun] + Items(p[pi..]), v)
  {
    assert p[start..][1..] == p[start + 1..];
    pi := start + 1;
    while pi < |p| && p[pi] == '%'
      invariant start < pi <= |p|
      invariant Accepts(Items(p[start..]), v) <==> Accepts([AnyRun] + Items(p[pi..]), v)
    {
      assert p[pi..][1..] == p[pi + 1..];
      RunsCollapse(Items(p[pi + 1..]), v);
      pi := pi + 1;
    }
  }

  /** The rest of the pattern after a `%`, tried at every remaining position. */
  method TryFrom(p: string, pi: nat, v: string, vi: nat) returns (matched: bool)
    requires 0 < pi <= |p| && vi <= |v|
    ensures matched <==> Accepts([AnyRun] + Items(p[pi..]), v[vi..])
    decreases |p| - pi, 1
  {
    ghost var items, rest := [AnyRun] + Items(p[pi..]), v[vi..];
    AcceptsRun(items, rest);
    assert items[1..] == Items(p[pi..]);
    var k := vi;
    while k <= |v|
      invariant vi <= k <= |v| + 1
      invariant forall j :: 0 <= j < k - vi ==> !Accepts(items[1..], rest[j..])
    {
      assert rest[k - vi..] == v[k..];
      var here := LikeImpl(p, pi, v, k);
      if here { return true; }
      k := k + 1;
    }
    return false;
  }

  method LikeMatch(pattern: string, value: string) returns (matched: bool)
    ensures matched <==> Accepts(Items(pattern), value)
  {
    assert pattern[0..] == pattern && value[0..] == value;
    matched := LikeImpl(pattern, 0, value, 0);
  }
}
