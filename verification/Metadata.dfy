/** The metadata cache (src/metadata.cpp) over the batched describe calls (src/salesforce.cpp).
    The server's answers do not change while the cache lives. */
module Metadata {
  import opened Wrappers
  import opened Text

  // ---------------------------------------------------------------- object descriptions

  datatype FieldMeta = FieldMeta(name: string, fieldType: string, relationshipName: string, position: nat)

  datatype ObjectMeta = ObjectMeta(name: string, fields: seq<FieldMeta>, byLower: map<string, nat>)

  /** A field as the server describes it. */
  datatype RawField = RawField(name: string, fieldType: string, relationshipName: string)

  datatype Describe = Describe(name: string, fields: seq<RawField>)

  predicate IsCompound(f: RawField) {
    f.fieldType == "address" || f.fieldType == "location"
  }

  /** The simple fields among the first `n`, numbered from 1. */
  function Fields(raw: seq<RawField>, n: nat): (r: seq<FieldMeta>)
    requires n <= |raw|
    ensures |r| <= n
    ensures forall i :: 0 <= i < |r| ==> r[i].position == i + 1
  {
    if n == 0 then []
    else
      var before, f := Fields(raw, n - 1), raw[n - 1];
      if IsCompound(f) then before
      else before + [FieldMeta(f.name, f.fieldType, f.relationshipName, |before| + 1)]
  }

  /** How many of the first `n` fields are neither addresses nor locations. */
  function Simple(raw: seq<RawField>, n: nat): (k: nat)
    requires n <= |raw|
    ensures k <= n
  {
    if n == 0 then 0
    else Simple(raw, n - 1) + if raw[n - 1].fieldType in {"address", "location"} then 0 else 1
  }

  /** The fields of an object are those described that are neither addresses nor locations, in the
      order of the description, numbered from 1. */
  lemma {:induction false} FieldsKept(raw: seq<RawField>, n: nat, i: nat)
    requires i < n <= |raw|
    ensures |Fields(raw, n)| == Simple(raw, n)
    ensures raw[i].fieldType !in {"address", "location"} ==>
              var k := Simple(raw, i);
              k < Simple(raw, n) &&
              Fields(raw, n)[k] == FieldMeta(raw[i].name, raw[i].fieldType, raw[i].relationshipName, k + 1)
  {
    if i < n - 1 { FieldsKept(raw, n - 1, i); } else { FieldsCounted(raw, i); }
  }

  lemma {:induction false} FieldsCounted(raw: seq<RawField>, n: nat)
    requires n <= |raw|
    ensures |Fields(raw, n)| == Simple(raw, n)
  {
    if n > 0 { FieldsCounted(raw, n - 1); }
  }

  /** Each lower-case name with the last field that has it. */
  function Index(fields: seq<FieldMeta>): (m: map<string, nat>)
    ensures forall k :: k in m ==> m[k] < |fields| && ToLower(fields[m[k]].name) == k
  {
    if fields == [] then map[]
    else
      var n := |fields| - 1;
      Index(fields[..n])[ToLower(fields[n].name) := n]
  }

  function Parse(d: Describe): ObjectMeta {
    var fields := Fields(d.fields, |d.fields|);
    ObjectMeta(d.name, fields, Index(fields))
  }

  method ParseDescribe(d: Describe) returns (m: ObjectMeta)
    ensures m == Parse(d)
  {
    var fields: seq<FieldMeta>, byLower: map<string, nat>, pos, i := [], map[], 0, 0;
    while i < |d.fields|
      invariant i <= |d.fields| && fields == Fields(d.fields, i) && byLower == Index(fields) && pos == |fields|
    {
      var f := d.fields[i];
      i := i + 1;
      if IsCompound(f) { continue; }
      pos := pos + 1;
      byLower := byLower[ToLower(f.name) := |fields|];
      fields := fields + [FieldMeta(f.name, f.fieldType, f.relationshipName, pos)];
      assert fields[..|fields| - 1] == Fields(d.fields, i - 1);
    }
    m := ObjectMeta(d.name, fields, byLower);
  }

  /** The field found through the index. */
  function Field(m: ObjectMeta, name: string): Option<FieldMeta>
    requires m.byLower == Index(m.fields)
  {
    if ToLower(name) in m.byLower then Some(m.fields[m.byLower[ToLower(name)]]) else None
  }

  /** The first field with that name in any case. */
  function Search(fields: seq<FieldMeta>, name: string): Option<FieldMeta> {
    if fields == [] then None
    else if IEquals(fields[0].name, name) then Some(fields[0])
    else Search(fields[1..], name)
  }

  predicate DistinctNames(fields: seq<FieldMeta>) {
    forall i, j :: 0 <= i < j < |fields| ==> !IEquals(fields[i].name, fields[j].name)
  }

  lemma {:induction false} SearchFinds(fields: seq<FieldMeta>, name: string)
    ensures Search(fields, name).None? ==> forall i :: 0 <= i < |fields| ==> !IEquals(fields[i].name, name)
    ensures Search(fields, name).Some? ==>
              exists i :: 0 <= i < |fields| && fields[i] == Search(fields, name).value &&
                          IEquals(fields[i].name, name) &&
                          forall j :: 0 <= j < i ==> !IEquals(fields[j].name, name)
  {
    if fields != [] && !IEquals(fields[0].name, name) {
      SearchFinds(fields[1..], name);
      if Search(fields[1..], name).Some? {
        var i :| 0 <= i < |fields[1..]| && fields[1..][i] == Search(fields[1..], name).value &&
                 IEquals(fields[1..][i].name, name) && forall j :: 0 <= j < i ==> !IEquals(fields[1..][j].name, name);
        assert fields[i + 1] == fields[1..][i];
        assert forall j :: 0 < j < i + 1 ==> fields[j] == fields[1..][j - 1];
      }
    }
  }

  lemma {:induction false} IndexFindsLast(fields: seq<FieldMeta>, key: string)
    ensures key in Index(fields) <==> exists i :: 0 <= i < |fields| && ToLower(fields[i].name) == key
    ensures key in Index(fields) ==> forall j :: Index(fields)[key] < j < |fields| ==> ToLower(fields[j].name) != key
  {
    if fields != [] {
      var n := |fields| - 1;
      IndexFindsLast(fields[..n], key);
      assert forall i :: 0 <= i < n ==> fields[..n][i] == fields[i];
    }
  }

  lemma FieldIsSearch(m: ObjectMeta, name: string)
    requires m.byLower == Index(m.fields) && DistinctNames(m.fields)
    ensures Field(m, name) == Search(m.fields, name)
  {
    hide Index, Search;
    SearchFinds(m.fields, name);
    IndexFindsLast(m.fields, ToLower(name));
  }

  lemma SharedNameDiffers(m: ObjectMeta, i: nat, j: nat)
    requires m.byLower == Index(m.fields) && i < j < |m.fields| && IEquals(m.fields[i].name, m.fields[j].name)
    requires forall k :: 0 <= k < |m.fields| ==> m.fields[k].position == k + 1
    ensures Field(m, m.fields[i].name) != Search(m.fields, m.fields[i].name)
  {
    hide Index, Search;
    var name := m.fields[i].name;
    SearchFinds(m.fields, name);
    IndexFindsLast(m.fields, ToLower(name));
    assert Field(m, name).value.position > j;
    assert Search(m.fields, name).value.position <= i + 1;
  }

  predicate Agrees(m: ObjectMeta, name: string)
    requires m.byLower == Index(m.fields)
  {
    Field(m, name) == Search(m.fields, name)
  }

  /** The index agrees with a linear search in any case, for every name, exactly when no two fields
      have the same name ignoring case. */
  lemma IndexIsSearch(d: Describe)
    ensures (forall name :: Agrees(Parse(d), name)) <==> DistinctNames(Parse(d).fields)
  {
    hide Index, Search, Fields, Field, IEquals;
    var m := Parse(d);
    if DistinctNames(m.fields) {
      forall name ensures Agrees(m, name) { FieldIsSearch(m, name); }
    } else {
      var i, j :| 0 <= i < j < |m.fields| && IEquals(m.fields[i].name, m.fields[j].name);
      SharedNameDiffers(m, i, j);
      assert !Agrees(m, m.fields[i].name);
    }
  }

  // ---------------------------------------------------------------- the server

  datatype Request = GlobalDescribe | SingleDescribe(name: string) | BatchDescribe(names: seq<string>)

  /** Answers that never change, and a log of what was asked. */
  class Server {
    const names: seq<string>
    const describe: string -> Option<Describe>
    var log: seq<Request>

    constructor (names: seq<string>, describe: string -> Option<Describe>)
      ensures this.names == names && this.describe == describe && log == []
    {
      this.names, this.describe, log := names, describe, [];
    }

    method Ask(r: Request)
      modifies this
      ensures log == old(log) + [r]
    {
      log := log + [r];
    }
  }

  const BATCH := 25

  /** Consecutive groups of at most 25. */
  function Batches(names: seq<string>): seq<seq<string>> {
    if |names| <= BATCH then (if names == [] then [] else [names])
    else [names[..BATCH]] + Batches(names[BATCH..])
  }

  function Joined(batches: seq<seq<string>>): seq<string> {
    if batches == [] then [] else batches[0] + Joined(batches[1..])
  }

  /** Every name is asked for once, in order, in groups of 1 to 25 of which only the last may be
      smaller than 25. */
  lemma {:induction false} BatchesCover(names: seq<string>)
    ensures Joined(Batches(names)) == names
    ensures forall i :: 0 <= i < |Batches(names)| ==> 1 <= |Batches(names)[i]| <= 25
    ensures forall i :: 0 <= i < |Batches(names)| - 1 ==> |Batches(names)[i]| == 25
  {
    if |names| > BATCH {
      BatchesCover(names[BATCH..]);
      assert Batches(names)[1..] == Batches(names[BATCH..]);
      assert names == names[..BATCH] + names[BATCH..];
    } else if names != [] {
      assert Joined([names]) == names + Joined([]);
    }
  }

  /** The listing asked for `k` times. */
  function Globals(k: nat): seq<Request> {
    seq(k, _ => GlobalDescribe)
  }

  lemma AskedAgain(log: seq<Request>, k: nat)
    ensures log + Globals(k) + [GlobalDescribe] == log + Globals(k + 1)
  {
    assert Globals(k + 1) == Globals(k) + [GlobalDescribe];
  }

  lemma NothingAsked()
    ensures Globals(0) == []
  {
  }

  function RequestFor(batch: seq<string>): Request {
    if |batch| == 1 then SingleDescribe(batch[0]) else BatchDescribe(batch)
  }

  function Requests(batches: seq<seq<string>>): (r: seq<Request>)
    ensures |r| == |batches|
  {
    if batches == [] then [] else [RequestFor(batches[0])] + Requests(batches[1..])
  }

  function DescribedOne(describe: string -> Option<Describe>, name: string): seq<(string, Describe)> {
    if describe(name).Some? then [(name, describe(name).value)] else []
  }

  /** The answered ones among the names, in order. */
  function Described(describe: string -> Option<Describe>, names: seq<string>): seq<(string, Describe)> {
    if names == [] then [] else DescribedOne(describe, names[0]) + Described(describe, names[1..])
  }

  lemma {:induction false} DescribedBoth(describe: string -> Option<Describe>, a: seq<string>, b: seq<string>)
    ensures Described(describe, a + b) == Described(describe, a) + Described(describe, b)
  {
    hide DescribedOne;
    if a == [] {
      assert a + b == b;
    } else {
      assert (a + b)[1..] == a[1..] + b && (a + b)[0] == a[0];
      DescribedBoth(describe, a[1..], b);
      var first, second, third := DescribedOne(describe, a[0]), Described(describe, a[1..]), Described(describe, b);
      assert first + (second + third) == (first + second) + third;
    }
  }

  lemma SingleDescribed(describe: string -> Option<Describe>, name: string)
    ensures Described(describe, [name]) == DescribedOne(describe, name)
  {
    assert DescribedOne(describe, name) + [] == DescribedOne(describe, name);
  }

  lemma RequestsStep(batch: seq<string>, rest: seq<seq<string>>)
    ensures Requests([batch] + rest) == [RequestFor(batch)] + Requests(rest)
  {
    assert ([batch] + rest)[1..] == rest;
  }

  lemma BatchesStep(names: seq<string>, end: nat)
    requires names != [] && end == if |names| <= BATCH then |names| else BATCH
    ensures Requests(Batches(names)) == [RequestFor(names[..end])] + Requests(Batches(names[end..]))
  {
    RequestsStep(names[..end], Batches(names[end..]));
    if |names| <= BATCH {
      assert names[..end] == names && names[end..] == [];
      assert [names] + [] == [names];
    }
  }

  predicate Answers(describe: string -> Option<Describe>, names: seq<string>) {
    forall i :: 0 <= i < |names| ==> describe(names[i]).Some?
  }

  /** The last group is a single name, which the server does not describe. */
  predicate LastFails(describe: string -> Option<Describe>, names: seq<string>) {
    |names| % 25 == 1 && describe(names[|names| - 1]).None?
  }

  /** `describe_many`: a group of one is a plain describe, whose failure is thrown; a failure inside
      a batch only drops that name. */
  method DescribeMany(server: Server, names: seq<string>) returns (r: Result<seq<(string, Describe)>>)
    modifies server
    ensures r == if LastFails(server.describe, names) then Err("HY000") else Ok(Described(server.describe, names))
    ensures server.log == old(server.log) + Requests(Batches(names))
  {
    hide Batches, Requests, RequestFor, Described;
    var out: seq<(string, Describe)>, i := [], 0;
    assert names[0..] == names && names[..0] == [];
    NothingDescribed(server.describe);
    assert server.log + Requests(Batches(names)) == old(server.log) + Requests(Batches(names));
    while i < |names|
      invariant i <= |names| && out == Described(server.describe, names[..i]) && (i % 25 == 0 || i == |names|)
      invariant server.log + Requests(Batches(names[i..])) == old(server.log) + Requests(Batches(names))
      invariant i == |names| ==> !LastFails(server.describe, names)
      decreases |names| - i
    {
      var end := if |names| - i <= BATCH then |names| else i + BATCH;
      BatchesStep(names[i..], end - i);
      assert names[i..][..end - i] == names[i..end] && names[i..][end - i..] == names[end..];
      assert names[..end] == names[..i] + names[i..end];
      DescribedBoth(server.describe, names[..i], names[i..end]);
      ghost var log := server.log;
      server.Ask(RequestFor(names[i..end]));
      assert server.log + Requests(Batches(names[end..])) ==
             log + ([RequestFor(names[i..end])] + Requests(Batches(names[end..])));
      assert server.log + Requests(Batches(names[end..])) == log + Requests(Batches(names[i..]));
      if end - i == 1 {
        var d := server.describe(names[i]);
        if d.None? {
          NoRequests();
          assert names[end..] == [];
          return Err("HY000");
        }
        SingleDescribed(server.describe, names[i]);
        assert names[i..end] == [names[i]];
        out := out + [(names[i], d.value)];
      } else {
        var k := i;
        assert names[i..k] == [] && out + [] == out;
        while k < end
          invariant server.log == log + [RequestFor(names[i..end])]
          invariant i <= k <= end
          invariant out == Described(server.describe, names[..i]) + Described(server.describe, names[i..k])
        {
          assert names[i..k + 1] == names[i..k] + [names[k]];
          DescribedBoth(server.describe, names[i..k], [names[k]]);
          SingleDescribed(server.describe, names[k]);
          var d := server.describe(names[k]);
          if d.Some? { out := out + [(names[k], d.value)]; }
          k := k + 1;
        }
      }
      i := end;
    }
    assert names[..i] == names && names[i..] == [];
    NoRequests();
    r := Ok(out);
  }

  lemma NothingDescribed(describe: string -> Option<Describe>)
    ensures Described(describe, []) == []
  {
  }

  lemma NoRequests()
    ensures Requests(Batches([])) == []
  {
  }

  /** A group of one is described by itself, any other in one batch. */
  lemma {:induction false} RequestsAre(batches: seq<seq<string>>, i: nat)
    requires i < |batches|
    ensures Requests(batches)[i] ==
            if |batches[i]| == 1 then SingleDescribe(batches[i][0]) else BatchDescribe(batches[i])
  {
    if i > 0 { RequestsAre(batches[1..], i - 1); }
  }

  // ---------------------------------------------------------------- what the cache stands for

  predicate Before(a: string, b: string) {
    TextCompare(ToLower(a), ToLower(b)) < 0
  }

  /** The list with a name put in front of the first one that sorts after it. */
  function Insert(name: string, list: seq<string>): (r: seq<string>)
    ensures multiset(r) == multiset(list) + multiset{name}
  {
    if list == [] then [name]
    else if Before(name, list[0]) then [name] + list
    else
      assert list == [list[0]] + list[1..];
      [list[0]] + Insert(name, list[1..])
  }

  /** The server's objects, sorted by lower-case name. */
  function Listing(names: seq<string>): (r: seq<string>)
    ensures multiset(r) == multiset(names)
  {
    if names == [] then []
    else
      var n := |names| - 1;
      assert names == names[..n] + [names[n]];
      Insert(names[n], Listing(names[..n]))
  }

  /** The name does not sort before the other one. */
  predicate NotBefore(a: string, b: string) {
    !TextLess(ToLower(a), ToLower(b))
  }

  /** No name sorts before one listed ahead of it. */
  predicate InOrder(list: seq<string>) {
    forall i, j :: 0 <= i < j < |list| ==> NotBefore(list[j], list[i])
  }

  lemma BeforeIs(a: string, b: string)
    ensures Before(a, b) <==> !NotBefore(a, b)
    ensures Before(a, b) ==> NotBefore(b, a)
  {
    TextCompareOrders(ToLower(a), ToLower(b));
  }

  lemma BehindBoth(a: string, b: string, c: string)
    requires Before(a, b) && NotBefore(c, b)
    ensures NotBefore(c, a)
  {
    BeforeIs(a, b);
    if !NotBefore(c, a) { TextLessTransitive(ToLower(c), ToLower(a), ToLower(b)); }
  }

  /** A list stays in order with a name in front of it that none of its names sorts before. */
  lemma InFront(name: string, list: seq<string>)
    requires InOrder(list) && forall j :: 0 <= j < |list| ==> NotBefore(list[j], name)
    ensures InOrder([name] + list)
  {
    hide NotBefore;
    var all := [name] + list;
    forall i, j | 0 <= i < j < |all| ensures NotBefore(all[j], all[i]) {
      assert all[j] == list[j - 1];
      if i > 0 { assert all[i] == list[i - 1]; }
    }
  }

  lemma {:induction false} InsertKeepsOrder(name: string, list: seq<string>)
    requires InOrder(list)
    ensures InOrder(Insert(name, list))
    ensures forall x :: x in Insert(name, list) ==> x == name || x in list
  {
    hide NotBefore, Before;
    if list == [] {
    } else if Before(name, list[0]) {
      BeforeIs(name, list[0]);
      forall j | 0 <= j < |list| ensures NotBefore(list[j], name) {
        if j > 0 { BehindBoth(name, list[0], list[j]); }
      }
      InFront(name, list);
    } else {
      BeforeIs(name, list[0]);
      InsertKeepsOrder(name, list[1..]);
      var rest := Insert(name, list[1..]);
      forall j | 0 <= j < |rest| ensures NotBefore(rest[j], list[0]) {
        if rest[j] != name { assert rest[j] in list[1..]; }
      }
      InFront(list[0], rest);
    }
  }

  /** The listing is sorted by name without regard to case, and holds the server's names. */
  lemma {:induction false} ListingSorted(names: seq<string>)
    ensures InOrder(Listing(names)) && multiset(Listing(names)) == multiset(names)
  {
    if names != [] {
      var n := |names| - 1;
      ListingSorted(names[..n]);
      InsertKeepsOrder(names[n], Listing(names[..n]));
    }
  }

  /** The listed name that equals `name` in any case. */
  function Resolve(list: seq<string>, name: string): (r: Option<string>)
    ensures r.Some? ==> r.value in list && IEquals(r.value, name)
  {
    if list == [] then None
    else if IEquals(list[0], name) then Some(list[0])
    else Resolve(list[1..], name)
  }

  /** A name is resolved to the first listed one that equals it in any case, and to none only where no
      such name is listed. */
  lemma {:induction false} ResolveIsFirst(list: seq<string>, name: string, i: nat)
    requires i < |list| && IEquals(list[i], name) && forall j :: 0 <= j < i ==> !IEquals(list[j], name)
    ensures Resolve(list, name) == Some(list[i])
  {
    hide IEquals;
    if i > 0 { ResolveIsFirst(list[1..], name, i - 1); }
  }

  lemma {:induction false} ResolveAnyCase(list: seq<string>, a: string, b: string)
    requires IEquals(a, b)
    ensures Resolve(list, a) == Resolve(list, b)
  {
    if list != [] { ResolveAnyCase(list[1..], a, b); }
  }

  /** The canonical names of those that exist, in order. */
  function Canonical(list: seq<string>, names: seq<string>): seq<string> {
    if names == [] then []
    else
      var n := |names| - 1;
      Canonical(list, names[..n]) + (if Resolve(list, names[n]).Some? then [Resolve(list, names[n]).value] else [])
  }

  /** How many of the first `n` names are listed. */
  function Listed(list: seq<string>, names: seq<string>, n: nat): (k: nat)
    requires n <= |names|
    ensures k <= n
  {
    if n == 0 then 0
    else Listed(list, names, n - 1) + if exists x :: x in list && IEquals(x, names[n - 1]) then 1 else 0
  }

  /** Every listed name has its place among the canonical ones, in the order and as often as it was
      given. */
  lemma {:induction false} CanonicalKept(list: seq<string>, names: seq<string>, i: nat)
    requires i < |names|
    ensures |Canonical(list, names)| == Listed(list, names, |names|)
    ensures (exists x :: x in list && IEquals(x, names[i])) ==>
              var k := Listed(list, names, i);
              Resolve(list, names[i]).Some? && k < |Canonical(list, names)| &&
              Canonical(list, names)[k] == Resolve(list, names[i]).value
  {
    hide IEquals;
    var n := |names| - 1;
    ResolvesListed(list, names[n]);
    ListedAlike(list, names[..n], names, n);
    if i < n {
      CanonicalKept(list, names[..n], i);
      ListedAlike(list, names[..n], names, i);
    } else if n > 0 {
      CanonicalKept(list, names[..n], 0);
    }
  }

  lemma {:induction false} ResolvesListed(list: seq<string>, name: string)
    ensures Resolve(list, name).Some? <==> exists x :: x in list && IEquals(x, name)
  {
    hide IEquals;
    if list != [] && !IEquals(list[0], name) {
      ResolvesListed(list[1..], name);
      if x :| x in list && IEquals(x, name) { assert x in list[1..]; }
    }
  }

  lemma {:induction false} ListedAlike(list: seq<string>, a: seq<string>, b: seq<string>, n: nat)
    requires n <= |a| && n <= |b| && a[..n] == b[..n]
    ensures Listed(list, a, n) == Listed(list, b, n)
  {
    hide IEquals;
    if n > 0 {
      assert a[..n][..n - 1] == a[..n - 1] && b[..n][..n - 1] == b[..n - 1];
      assert a[..n][n - 1] == b[..n][n - 1];
      ListedAlike(list, a, b, n - 1);
    }
  }

  /** The descriptions the server gives, in order. */
  function Metas(describe: string -> Option<Describe>, names: seq<string>): seq<ObjectMeta> {
    if names == [] then []
    else
      var n := |names| - 1;
      Metas(describe, names[..n]) + (if describe(names[n]).Some? then [Parse(describe(names[n]).value)] else [])
  }

  /** The result without a cache: each name resolved and described anew, unknown ones left out. */
  ghost function Uncached(server: Server, names: seq<string>): seq<ObjectMeta> {
    Metas(server.describe, Canonical(Listing(server.names), names))
  }

  /** Every object the server lists can be described. */
  ghost predicate AnswersAll(server: Server) {
    forall n :: n in server.names ==> server.describe(n).Some?
  }

  lemma {:induction false} CanonicalResolved(server: Server, names: seq<string>)
    ensures forall n :: n in Canonical(Listing(server.names), names) ==>
              n in server.names && Resolve(Listing(server.names), n) == Some(n)
  {
    var list := Listing(server.names);
    if names != [] {
      var n := |names| - 1;
      CanonicalResolved(server, names[..n]);
      var c := Resolve(list, names[n]);
      if c.Some? {
        ResolveAnyCase(list, c.value, names[n]);
        assert c.value in multiset(list);
        assert c.value in multiset(server.names);
      }
    }
  }

  /** When every listed object can be described, each known name gives exactly one result. */
  lemma {:induction false} AllAnswered(server: Server, names: seq<string>)
    requires AnswersAll(server)
    ensures var canonical, r := Canonical(Listing(server.names), names), Uncached(server, names);
            |r| == |canonical| &&
            forall i :: 0 <= i < |r| ==>
              server.describe(canonical[i]).Some? && r[i] == Parse(server.describe(canonical[i]).value)
  {
    CanonicalResolved(server, names);
    MetasAll(server.describe, Canonical(Listing(server.names), names));
  }

  lemma {:induction false} MetasAll(describe: string -> Option<Describe>, names: seq<string>)
    requires Answers(describe, names)
    ensures var r := Metas(describe, names);
            |r| == |names| && forall i :: 0 <= i < |r| ==> r[i] == Parse(describe(names[i]).value)
  {
    hide Parse;
    if names != [] {
      var n := |names| - 1;
      MetasAll(describe, names[..n]);
      assert Metas(describe, names) == Metas(describe, names[..n]) + [Parse(describe(names[n]).value)];
    }
  }

  /** The cache's key for a name. */
  function Key(name: string): string {
    ToLower(name)
  }

  /** A cached description is that of the object its key resolves to. */
  predicate EntryOk(list: seq<string>, describe: string -> Option<Describe>, key: string, meta: ObjectMeta) {
    var c := Resolve(list, key);
    c.Some? && Key(c.value) == key && describe(c.value).Some? && meta == Parse(describe(c.value).value)
  }

  lemma EntryMade(list: seq<string>, describe: string -> Option<Describe>, name: string)
    requires Resolve(list, name) == Some(name) && describe(name).Some?
    ensures EntryOk(list, describe, Key(name), Parse(describe(name).value))
  {
    hide Parse;
    LowerTwice(name);
    ResolveAnyCase(list, name, Key(name));
  }

  lemma EntryRead(list: seq<string>, describe: string -> Option<Describe>, name: string, meta: ObjectMeta)
    requires Resolve(list, name) == Some(name) && EntryOk(list, describe, Key(name), meta)
    ensures describe(name).Some? && meta == Parse(describe(name).value)
  {
    hide Parse;
    LowerTwice(name);
    ResolveAnyCase(list, name, Key(name));
  }

  lemma LowerTwice(name: string)
    ensures IEquals(name, Key(name))
  {
  }

  datatype Entry = Entry(meta: ObjectMeta, at: int)

  /** What a clock shows, and what it shows after it has been read. */
  function Shows(readings: seq<int>): int {
    if readings == [] then 0 else readings[0]
  }

  function ReadOnce(readings: seq<int>): seq<int> {
    if readings == [] then [] else readings[1..]
  }

  /** The clock shows `t` now or later. */
  predicate ShownAt(readings: seq<int>, t: int) {
    t in readings || t == 0
  }

  /** What a clock still shows after it has been read some times. */
  predicate Later(readings: seq<int>, before: seq<int>) {
    exists j :: 0 <= j <= |before| && readings == before[j..]
  }

  lemma LaterStays(readings: seq<int>)
    ensures Later(readings, readings) && Later(ReadOnce(readings), readings)
  {
    assert readings[0..] == readings;
    assert readings != [] ==> ReadOnce(readings) == readings[1..];
  }

  lemma LaterTwice(a: seq<int>, b: seq<int>, c: seq<int>)
    requires Later(a, b) && Later(b, c)
    ensures Later(a, c)
  {
    var j :| 0 <= j <= |b| && a == b[j..];
    var k :| 0 <= k <= |c| && b == c[k..];
    assert a == c[j + k..];
  }

  lemma ReadTwice(before: seq<int>, readings: seq<int>)
    ensures readings == before || readings == ReadOnce(before) || readings == ReadOnce(ReadOnce(before)) ==>
              Later(readings, before)
  {
    LaterStays(before);
    LaterStays(ReadOnce(before));
    LaterTwice(ReadOnce(ReadOnce(before)), ReadOnce(before), before);
  }

  lemma ShownLater(readings: seq<int>)
    ensures ShownAt(readings, Shows(readings))
    ensures forall t :: ShownAt(ReadOnce(readings), t) ==> ShownAt(readings, t)
  {
  }

  /** The names without an entry, or with one that is older than `ttl` when the clock is read. */
  function Stale(objects: map<string, Entry>, ttl: int, names: seq<string>, readings: seq<int>): seq<string> {
    if names == [] then []
    else if Key(names[0]) !in objects then [names[0]] + Stale(objects, ttl, names[1..], readings)
    else
      (if Shows(readings) - objects[Key(names[0])].at < ttl then [] else [names[0]]) +
      Stale(objects, ttl, names[1..], ReadOnce(readings))
  }

  lemma NoneStale(objects: map<string, Entry>, ttl: int, names: seq<string>, readings: seq<int>)
    requires names == []
    ensures Stale(objects, ttl, names, readings) == []
  {
  }

  lemma StaleStep(objects: map<string, Entry>, ttl: int, names: seq<string>, i: nat, readings: seq<int>,
                  sofar: seq<string>)
    requires i < |names|
    ensures var known := Key(names[i]) in objects;
            var recent := known && Shows(readings) - objects[Key(names[i])].at < ttl;
            sofar + Stale(objects, ttl, names[i..], readings) ==
            (if recent then sofar else sofar + [names[i]]) +
            Stale(objects, ttl, names[i + 1..], if known then ReadOnce(readings) else readings)
  {
    hide Key, Shows, ReadOnce;
    assert names[i..][1..] == names[i + 1..];
    var rest := Stale(objects, ttl, names[i + 1..], if Key(names[i]) in objects then ReadOnce(readings) else readings);
    assert sofar + ([names[i]] + rest) == (sofar + [names[i]]) + rest;
    assert sofar + ([] + rest) == sofar + rest;
  }

  /** While the clock stands at `now`, exactly the names without an entry younger than `ttl` seconds
      are stale. */
  lemma {:induction false} StaleAt(objects: map<string, Entry>, ttl: int, names: seq<string>, readings: seq<int>,
                                   now: int, name: string)
    requires |readings| >= |names| && forall i :: 0 <= i < |readings| ==> readings[i] == now
    ensures name in Stale(objects, ttl, names, readings) <==>
            name in names && !(Key(name) in objects && now < objects[Key(name)].at + ttl)
  {
    hide Key;
    if names != [] {
      if Key(names[0]) in objects {
        StaleAt(objects, ttl, names[1..], readings[1..], now, name);
      } else {
        StaleAt(objects, ttl, names[1..], readings, now, name);
      }
    }
  }

  lemma {:induction false} StaleNames(objects: map<string, Entry>, ttl: int, names: seq<string>, readings: seq<int>)
    ensures forall n :: n in Stale(objects, ttl, names, readings) ==> n in names
    ensures forall n :: n in names ==> n in Stale(objects, ttl, names, readings) || Key(n) in objects
  {
    hide Key;
    if names != [] {
      StaleNames(objects, ttl, names[1..], if Key(names[0]) in objects then ReadOnce(readings) else readings);
    }
  }

  /** A clock whose readings may be anything. */
  class Clock {
    var readings: seq<int>

    method Now() returns (t: int)
      modifies this
      ensures t == Shows(old(readings)) && readings == ReadOnce(old(readings))
    {
      t := 0;
      if readings != [] {
        t := readings[0];
        readings := readings[1..];
      }
    }
  }

  class MetadataCache {
    var ttl: int
    var globals: seq<string>
    var globalsAt: int
    var globalsLoaded: bool
    var objects: map<string, Entry>

    constructor ()
      ensures !globalsLoaded && objects == map[] && ttl == 3600
    {
      ttl, globals, globalsAt, globalsLoaded, objects := 3600, [], 0, false, map[];
    }

    /** What is kept is what the server says: the sorted listing, and for each lower-case name the
        description of the object it resolves to. */
    ghost predicate Coherent(server: Server)
      reads this
    {
      (globalsLoaded ==> globals == Listing(server.names)) &&
      forall k :: k in objects ==> EntryOk(Listing(server.names), server.describe, k, objects[k].meta)
    }

    method SetTtl(seconds: int)
      modifies this`ttl
      ensures ttl == seconds
    {
      ttl := seconds;
    }

    method Invalidate()
      modifies this
      ensures !globalsLoaded && objects == map[] && forall server: Server :: Coherent(server)
    {
      globalsLoaded := false;
      objects := map[];
    }

    method Recent(clock: Clock, at: int) returns (recent: bool)
      modifies clock
      ensures recent <==> Shows(old(clock.readings)) - at < ttl
      ensures clock.readings == ReadOnce(old(clock.readings))
    {
      var now := clock.Now();
      recent := now - at < ttl;
    }

    /** The listing, asked for again when it is missing or old. */
    method Objects(server: Server, clock: Clock) returns (r: seq<string>)
      requires Coherent(server)
      modifies this`globals, this`globalsAt, this`globalsLoaded, server, clock
      ensures Coherent(server) && r == Listing(server.names) && globalsLoaded
      ensures var known := old(globalsLoaded) && Shows(old(clock.readings)) - old(globalsAt) < ttl;
              var later := if old(globalsLoaded) then ReadOnce(old(clock.readings)) else old(clock.readings);
              server.log == old(server.log) + (if known then [] else [GlobalDescribe]) &&
              globalsAt == (if known then old(globalsAt) else Shows(later)) &&
              clock.readings == if known then later else ReadOnce(later)
    {
      var recent := false;
      if globalsLoaded { recent := Recent(clock, globalsAt); }
      if !recent {
        server.Ask(GlobalDescribe);
        globals := Listing(server.names);
        globalsAt := clock.Now();
        globalsLoaded := true;
      }
      r := globals;
    }

    method ResolveObjectName(server: Server, clock: Clock, name: string) returns (r: Option<string>)
      requires Coherent(server)
      modifies this`globals, this`globalsAt, this`globalsLoaded, server, clock
      ensures Coherent(server) && r == Resolve(Listing(server.names), name)
      ensures server.log == old(server.log) || server.log == old(server.log) + [GlobalDescribe]
      ensures Later(clock.readings, old(clock.readings))
    {
      hide EntryOk, Listing, Parse, ReadOnce, Shows, Later, IEquals;
      var list := Objects(server, clock);
      assert old(server.log) + [] == old(server.log);
      ReadTwice(old(clock.readings), clock.readings);
      var i := 0;
      while i < |list|
        invariant i <= |list| && Resolve(list[i..], name) == Resolve(list, name)
      {
        if IEquals(list[i], name) { return Some(list[i]); }
        i := i + 1;
      }
      return None;
    }

    method CanonicalNames(server: Server, clock: Clock, names: seq<string>)
      returns (canonical: seq<string>, ghost asked: nat)
      requires Coherent(server)
      modifies this`globals, this`globalsAt, this`globalsLoaded, server, clock
      ensures Coherent(server) && canonical == Canonical(Listing(server.names), names)
      ensures asked <= |names| && server.log == old(server.log) + Globals(asked)
      ensures Later(clock.readings, old(clock.readings))
    {
      hide EntryOk, Listing, Parse, Later, Resolve, Globals;
      canonical, asked := [], 0;
      NothingAsked();
      assert server.log + [] == server.log;
      LaterStays(clock.readings);
      var i := 0;
      while i < |names|
        invariant i <= |names| && Coherent(server) && canonical == Canonical(Listing(server.names), names[..i])
        invariant asked <= i && server.log == old(server.log) + Globals(asked)
        invariant Later(clock.readings, old(clock.readings))
      {
        ghost var log, readings := server.log, clock.readings;
        var cn := ResolveObjectName(server, clock, names[i]);
        LaterTwice(clock.readings, readings, old(clock.readings));
        if server.log != log {
          AskedAgain(old(server.log), asked);
          asked := asked + 1;
        }
        assert names[..i + 1][..i] == names[..i];
        if cn.Some? { canonical := canonical + [cn.value]; }
        i := i + 1;
      }
      assert names[..i] == names;
    }

    /** The names whose entry is missing or old. */
    method Missing(clock: Clock, canonical: seq<string>) returns (missing: seq<string>)
      modifies clock
      ensures missing == Stale(objects, ttl, canonical, old(clock.readings))
    {
      hide Key, Shows, ReadOnce, Stale;
      missing := [];
      assert canonical[0..] == canonical && [] + Stale(objects, ttl, canonical, clock.readings) ==
             Stale(objects, ttl, canonical, clock.readings);
      var i := 0;
      while i < |canonical|
        invariant i <= |canonical|
        invariant missing + Stale(objects, ttl, canonical[i..], clock.readings) ==
                  Stale(objects, ttl, canonical, old(clock.readings))
      {
        StaleStep(objects, ttl, canonical, i, clock.readings, missing);
        var recent := false;
        if Key(canonical[i]) in objects { recent := Recent(clock, objects[Key(canonical[i])].at); }
        if !recent { missing := missing + [canonical[i]]; }
        i := i + 1;
      }
      NoneStale(objects, ttl, canonical[i..], clock.readings);
      assert missing + [] == missing;
    }

    /** `objects_meta`: whatever was cached, however old it is and whatever the clock says, the result
        is the uncached one, and the cache still stands for the server, which is asked for just the
        descriptions that are missing or old when the clock shows `later`. */
    method ObjectsMeta(server: Server, clock: Clock, names: seq<string>)
      returns (r: Result<seq<ObjectMeta>>, ghost asked: nat, ghost later: seq<int>)
      requires Coherent(server)
      modifies this`globals, this`globalsAt, this`globalsLoaded, this`objects, server, clock
      ensures Coherent(server)
      ensures asked <= |names| && Later(later, old(clock.readings))
      ensures var missing := Stale(old(objects), ttl, Canonical(Listing(server.names), names), later);
              r == (if LastFails(server.describe, missing) then Err("HY000") else Ok(Uncached(server, names))) &&
              server.log == old(server.log) + Globals(asked) + Requests(Batches(missing))
      ensures AnswersAll(server) ==> r.Ok?
    {
      hide Key, EntryOk, Resolve, Listing, Parse, Described, Canonical, Requests, Batches, Globals, Later;
      var canonical;
      canonical, asked := CanonicalNames(server, clock, names);
      CanonicalResolved(server, names);
      later := clock.readings;
      StaleNames(objects, ttl, canonical, later);
      var missing := Missing(clock, canonical);
      if missing != [] {
        var described := DescribeMany(server, missing);
        if described.Err? { return Err(described.state), asked, later; }
        Remember(server, clock, missing, described.value);
      } else {
        NoRequests();
        assert server.log + [] == server.log;
      }
      var out := Collect(server, canonical);
      r := Ok(out);
    }

    /** The kept descriptions of the names, in order. */
    method Collect(server: Server, canonical: seq<string>) returns (out: seq<ObjectMeta>)
      requires Coherent(server) && forall n :: n in canonical ==> Resolve(Listing(server.names), n) == Some(n)
      requires forall n :: n in canonical && server.describe(n).Some? ==> Key(n) in objects
      ensures out == Metas(server.describe, canonical)
    {
      hide Key, EntryOk, Resolve, Listing, Parse;
      out := [];
      var i := 0;
      while i < |canonical|
        invariant i <= |canonical| && out == Metas(server.describe, canonical[..i])
      {
        assert canonical[..i + 1][..i] == canonical[..i];
        assert canonical[i] in canonical;
        if Key(canonical[i]) in objects {
          EntryRead(Listing(server.names), server.describe, canonical[i], objects[Key(canonical[i])].meta);
          out := out + [objects[Key(canonical[i])].meta];
        }
        i := i + 1;
      }
      assert canonical[..i] == canonical;
    }

    /** Parses and stores the described objects. */
    method Remember(server: Server, clock: Clock, missing: seq<string>, described: seq<(string, Describe)>)
      requires Coherent(server) && described == Described(server.describe, missing)
      requires forall n :: n in missing ==> Resolve(Listing(server.names), n) == Some(n)
      modifies this`objects, clock
      ensures Coherent(server)
      ensures forall k :: k in old(objects) ==> k in objects
      ensures forall n :: n in missing && server.describe(n).Some? ==> Key(n) in objects
      ensures forall k :: k in objects ==>
                (k in old(objects) && objects[k] == old(objects)[k]) || ShownAt(old(clock.readings), objects[k].at)
    {
      hide Key, EntryOk, Resolve, Listing, Parse, Described;
      var i := 0;
      DescribedAre(server.describe, missing);
      while i < |described|
        invariant i <= |described| && Coherent(server)
        invariant forall k :: k in old(objects) ==> k in objects
        invariant forall j :: 0 <= j < i ==> Key(described[j].0) in objects
        invariant forall t :: ShownAt(clock.readings, t) ==> ShownAt(old(clock.readings), t)
        invariant forall k :: k in objects ==>
                    (k in old(objects) && objects[k] == old(objects)[k]) || ShownAt(old(clock.readings), objects[k].at)
      {
        var (name, d) := described[i];
        var meta := ParseDescribe(d);
        ShownLater(clock.readings);
        var now := clock.Now();
        EntryMade(Listing(server.names), server.describe, name);
        objects := objects[Key(name) := Entry(meta, now)];
        i := i + 1;
      }
      forall n | n in missing && server.describe(n).Some? ensures Key(n) in objects {
        var j :| 0 <= j < |described| && described[j].0 == n;
      }
    }
  }

  lemma {:induction false} DescribedAre(describe: string -> Option<Describe>, names: seq<string>)
    ensures var d := Described(describe, names);
            (forall i :: 0 <= i < |d| ==> d[i].0 in names && describe(d[i].0) == Some(d[i].1)) &&
            (forall n :: n in names && describe(n).Some? ==> exists j :: 0 <= j < |d| && d[j].0 == n)
  {
    if names != [] {
      DescribedAre(describe, names[1..]);
      var d, rest := Described(describe, names), Described(describe, names[1..]);
      var one := DescribedOne(describe, names[0]);
      forall n | n in names && describe(n).Some? ensures exists j :: 0 <= j < |d| && d[j].0 == n {
        if n == names[0] {
          assert d[0].0 == n;
        } else {
          assert n in names[1..];
          var j :| 0 <= j < |rest| && rest[j].0 == n;
          assert d[|one| + j] == rest[j];
        }
      }
    }
  }
}
