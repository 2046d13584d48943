/** What a cell of a row is: the value at the end of a column's path through the objects of a record
    (src/cursor.cpp:117-121 and :144-152). */
module Cells {
  import opened Wrappers
  import opened Text
  import opened Cursor

  /** The member of an object a key names: the first with just that name, or if there is none the
      first with that name in any case. */
  predicate Names(fields: seq<(string, Json)>, key: string, i: nat) {
    i < |fields| &&
    if exists k :: 0 <= k < |fields| && fields[k].0 == key
    then fields[i].0 == key && forall k :: 0 <= k < i ==> fields[k].0 != key
    else IEquals(fields[i].0, key) && forall k :: 0 <= k < i ==> !IEquals(fields[k].0, key)
  }

  ghost predicate Leads(j: Json, key: string, next: Json) {
    j.Obj? && exists i :: 0 <= i < |j.fields| && Names(j.fields, key, i) && j.fields[i].1 == next
  }

  /** From a record along a path: each value an object with the member the path names, none null. */
  ghost predicate Chain(rec: Json, path: seq<string>, nodes: seq<Json>) {
    |nodes| == |path| + 1 && nodes[0] == rec &&
    (forall i :: 0 <= i < |nodes| ==> !nodes[i].Null?) &&
    forall i :: 0 <= i < |path| ==> Leads(nodes[i], path[i], nodes[i + 1])
  }

  /** Where a path cannot go on: a value without members, or none of that name, or a null. */
  ghost predicate Stops(j: Json, key: string) {
    !j.Obj? || (forall i :: 0 <= i < |j.fields| ==> !IEquals(j.fields[i].0, key)) || Leads(j, key, Null)
  }

  ghost predicate Broken(rec: Json, path: seq<string>) {
    rec.Null? || exists k, nodes :: 0 <= k < |path| && Chain(rec, path[..k], nodes) && Stops(nodes[k], path[k])
  }

  lemma {:induction false} ExactIsFirst(fields: seq<(string, Json)>, key: string)
    ensures match FindExact(fields, key)
            case Some(x) =>
              exists i :: 0 <= i < |fields| && fields[i].0 == key && fields[i].1 == x &&
                          forall k :: 0 <= k < i ==> fields[k].0 != key
            case None => forall i :: 0 <= i < |fields| ==> fields[i].0 != key
  {
    if fields != [] && fields[0].0 != key {
      ExactIsFirst(fields[1..], key);
      if FindExact(fields, key).Some? {
        var i :| 0 <= i < |fields[1..]| && fields[1..][i].0 == key &&
                 fields[1..][i].1 == FindExact(fields, key).value &&
                 forall k :: 0 <= k < i ==> fields[1..][k].0 != key;
        assert fields[i + 1] == fields[1..][i];
        forall k | 0 <= k < i + 1 ensures fields[k].0 != key {
          if k > 0 { assert fields[k] == fields[1..][k - 1]; }
        }
      } else {
        forall i | 0 <= i < |fields| ensures fields[i].0 != key {
          if i > 0 { assert fields[i] == fields[1..][i - 1]; }
        }
      }
    }
  }

  lemma {:induction false} AnyCaseIsFirst(fields: seq<(string, Json)>, key: string)
    ensures match FindAnyCase(fields, key)
            case Some(x) =>
              exists i :: 0 <= i < |fields| && IEquals(fields[i].0, key) && fields[i].1 == x &&
                          forall k :: 0 <= k < i ==> !IEquals(fields[k].0, key)
            case None => forall i :: 0 <= i < |fields| ==> !IEquals(fields[i].0, key)
  {
    hide IEquals;
    if fields != [] && !IEquals(fields[0].0, key) {
      AnyCaseIsFirst(fields[1..], key);
      if FindAnyCase(fields, key).Some? {
        var i :| 0 <= i < |fields[1..]| && IEquals(fields[1..][i].0, key) &&
                 fields[1..][i].1 == FindAnyCase(fields, key).value &&
                 forall k :: 0 <= k < i ==> !IEquals(fields[1..][k].0, key);
        assert fields[i + 1] == fields[1..][i];
        forall k | 0 <= k < i + 1 ensures !IEquals(fields[k].0, key) {
          if k > 0 { assert fields[k] == fields[1..][k - 1]; }
        }
      } else {
        forall i | 0 <= i < |fields| ensures !IEquals(fields[i].0, key) {
          if i > 0 { assert fields[i] == fields[1..][i - 1]; }
        }
      }
    }
  }

  /** One step of a path. */
  lemma StepIs(j: Json, key: string)
    ensures FindKey(j, key).Some? ==> Leads(j, key, FindKey(j, key).value)
    ensures FindKey(j, key).None? ==>
              !j.Obj? || forall i :: 0 <= i < |j.fields| ==> !IEquals(j.fields[i].0, key)
  {
    if j.Obj? {
      ExactIsFirst(j.fields, key);
      AnyCaseIsFirst(j.fields, key);
    }
  }

  /** A step leads to one value only, and nowhere if there is no such member. */
  lemma StepUnique(j: Json, key: string, next: Json)
    requires Leads(j, key, next)
    ensures FindKey(j, key) == Some(next)
  {
    StepIs(j, key);
    var i :| 0 <= i < |j.fields| && Names(j.fields, key, i) && j.fields[i].1 == next;
    assert j.fields[i].0 == key || IEquals(j.fields[i].0, key);
    if FindKey(j, key).Some? {
      var k :| 0 <= k < |j.fields| && Names(j.fields, key, k) && j.fields[k].1 == FindKey(j, key).value;
      assert i == k;
    }
  }

  lemma {:induction false} ChainWalks(rec: Json, path: seq<string>, nodes: seq<Json>)
    requires Chain(rec, path, nodes)
    ensures Walk(rec, path) == Some(nodes[|path|])
    decreases path
  {
    if path != [] {
      assert Leads(nodes[0], path[0], nodes[1]);
      StepUnique(rec, path[0], nodes[1]);
      var rest := nodes[1..];
      forall i | 0 <= i < |path[1..]| ensures Leads(rest[i], path[1..][i], rest[i + 1]) {
        assert Leads(nodes[i + 1], path[i + 1], nodes[i + 2]);
      }
      ChainWalks(nodes[1], path[1..], rest);
    }
  }

  lemma ChainGrows(rec: Json, next: Json, path: seq<string>, nodes: seq<Json>)
    requires path != [] && !rec.Null? && Leads(rec, path[0], next) && Chain(next, path[1..], nodes)
    ensures Chain(rec, path, [rec] + nodes)
  {
    var all := [rec] + nodes;
    forall i | 0 <= i < |path| ensures Leads(all[i], path[i], all[i + 1]) {
      if i > 0 { assert Leads(nodes[i - 1], path[1..][i - 1], nodes[i]); }
    }
  }

  lemma ChainStart(rec: Json)
    requires !rec.Null?
    ensures Chain(rec, [], [rec])
  {
  }

  /** A path either leads to a value, or breaks. */
  lemma {:induction false} WalkEnds(rec: Json, path: seq<string>) returns (k: nat, nodes: seq<Json>)
    requires !rec.Null?
    ensures k <= |path| && Chain(rec, path[..k], nodes) && (k < |path| ==> Stops(nodes[k], path[k]))
    decreases path
  {
    if path == [] {
      k, nodes := 0, [rec];
      ChainStart(rec);
    } else {
      StepIs(rec, path[0]);
      var next := FindKey(rec, path[0]);
      if next.None? || next.value.Null? {
        k, nodes := 0, [rec];
        ChainStart(rec);
        assert path[..0] == [];
      } else {
        var m, rest := WalkEnds(next.value, path[1..]);
        assert path[..m + 1][1..] == path[1..][..m];
        ChainGrows(rec, next.value, path[..m + 1], rest);
        k, nodes := m + 1, [rec] + rest;
        if k < |path| { assert nodes[k] == rest[m] && path[k] == path[1..][m]; }
      }
    }
  }

  lemma StopsStep(j: Json, key: string)
    requires Stops(j, key)
    ensures FindKey(j, key) == None || FindKey(j, key) == Some(Null)
  {
    if Leads(j, key, Null) {
      StepUnique(j, key, Null);
    } else if j.Obj? {
      ExactIsFirst(j.fields, key);
      AnyCaseIsFirst(j.fields, key);
    }
  }

  lemma {:induction false} BrokenStops(rec: Json, path: seq<string>, k: nat, nodes: seq<Json>)
    requires k < |path| && Chain(rec, path[..k], nodes) && Stops(nodes[k], path[k])
    ensures Walk(rec, path).None? || Walk(rec, path) == Some(Null)
    decreases k
  {
    hide Leads, Stops, FindKey;
    if k == 0 {
      StopsStep(rec, path[0]);
    } else {
      var rest := nodes[1..];
      assert path[..k][1..] == path[1..][..k - 1];
      assert Leads(nodes[0], path[..k][0], nodes[1]);
      StepUnique(rec, path[0], nodes[1]);
      forall i | 0 <= i < k - 1 ensures Leads(rest[i], path[1..][..k - 1][i], rest[i + 1]) {
        assert Leads(nodes[i + 1], path[..k][i + 1], nodes[i + 2]);
      }
      BrokenStops(nodes[1], path[1..], k - 1, rest);
    }
  }

  /** A column's cell is the converted value at the end of its path, whatever stands along it, and
      missing exactly when the path breaks; a constant column has its constant. */
  lemma CellIs(c: ColumnInfo, rec: Json)
    ensures c.isConst ==> CellOf(c, rec) == c.constValue
    ensures !c.isConst ==>
              (CellOf(c, rec).Some? <==> exists nodes :: Chain(rec, c.path, nodes)) &&
              (forall nodes :: Chain(rec, c.path, nodes) ==> CellOf(c, rec) == Some(c.convert(nodes[|c.path|]))) &&
              (CellOf(c, rec).None? <==> Broken(rec, c.path))
  {
    if !c.isConst {
      forall nodes | Chain(rec, c.path, nodes) ensures CellOf(c, rec) == Some(c.convert(nodes[|c.path|])) {
        ChainWalks(rec, c.path, nodes);
      }
      if rec.Null? {
        assert FindKey(rec, "").None?;
      } else {
        var k, nodes := WalkEnds(rec, c.path);
        if k == |c.path| {
          assert c.path[..k] == c.path;
        } else {
          BrokenStops(rec, c.path, k, nodes);
        }
        if exists m, more :: 0 <= m < |c.path| && Chain(rec, c.path[..m], more) && Stops(more[m], c.path[m]) {
          var m, more :| 0 <= m < |c.path| && Chain(rec, c.path[..m], more) && Stops(more[m], c.path[m]);
          BrokenStops(rec, c.path, m, more);
        }
      }
    }
  }
}
