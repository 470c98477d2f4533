/** The expression builder `calcExpression` (src/index.js, and the identical
    method of class Document in src/document.js): from an ordered field map it
    builds the DynamoDB condition/update clauses, the placeholder values and the
    name of the secondary index to query. */
module Expressions {
  import opened Strings
  import opened JsValues

  const FieldNameId := "id"

  /** What goes into `ExpressionAttributeValues`: the value itself, or, for a
      value that is `instanceof Object` (an array or an object), the string
      `JSON.stringify` makes of it. */
  datatype AttrValue = Plain(value: JsValue) | Stringified(value: JsValue)

  /** The object `calcExpression` returns. */
  datatype Expression = Expression(keys: string, values: map<string, AttrValue>, index: string)

  /** `:value${i}`. */
  function Placeholder(i: nat): string
  {
    ":value" + NatToString(i)
  }

  lemma PlaceholderInjective(i: nat, j: nat)
    ensures Placeholder(i) == Placeholder(j) ==> i == j
  {
    if Placeholder(i) == Placeholder(j) {
      assert NatToString(i) == Placeholder(i)[6..];
      assert NatToString(j) == Placeholder(j)[6..];
      NatToStringInjective(i, j);
    }
  }

  function AttrOf(v: JsValue): AttrValue
  {
    if v.Arr? || v.Obj? then Stringified(v) else Plain(v)
  }

  /** `${key} = ${placeholder}`. */
  function Clause(key: string, i: nat): string
  {
    key + " = " + Placeholder(i)
  }

  /** The clauses pushed while mapping over the keys, `id` skipped. */
  function Clauses(fields: Record): seq<string>
  {
    if fields == [] then []
    else
      var n := |fields| - 1;
      Clauses(fields[..n]) + (if fields[n].0 != FieldNameId then [Clause(fields[n].0, n)] else [])
  }

  /** The placeholder map filled while mapping over the keys, `id` skipped. */
  function Values(fields: Record): map<string, AttrValue>
  {
    if fields == [] then map[]
    else
      var n := |fields| - 1;
      if fields[n].0 != FieldNameId then Values(fields[..n])[Placeholder(n) := AttrOf(fields[n].1)]
      else Values(fields[..n])
  }

  /** `${keys.join('-')}-index`, over ALL keys, `id` included. */
  function IndexName(fields: Record): string
  {
    Join(Keys(fields), "-") + "-index"
  }

  /** The result of `calcExpression({fields, keysSeparator})`. */
  function ExpressionOf(fields: Record, keysSeparator: string): Expression
  {
    Expression(Join(Clauses(fields), keysSeparator), Values(fields), IndexName(fields))
  }

  /** The positions, in the full key list, of the keys other than `id`. */
  function NonIdPositions(fields: Record): seq<nat>
  {
    if fields == [] then []
    else
      var n := |fields| - 1;
      NonIdPositions(fields[..n]) + (if fields[n].0 != FieldNameId then [n] else [])
  }

  /** The loop of `calcExpression`: one clause and one placeholder per key other
      than `id`, the placeholder numbered by the key's position among all keys. */
  method CalcExpression(fields: Record, keysSeparator: string) returns (e: Expression)
    ensures e == ExpressionOf(fields, keysSeparator)
  {
    var expressions: seq<string> := [];
    var keys := Keys(fields);
    var values: map<string, AttrValue> := map[];
    var index := 0;
    while index < |fields|
      invariant 0 <= index <= |fields|
      invariant expressions == Clauses(fields[..index])
      invariant values == Values(fields[..index])
    {
      assert fields[..index + 1][..index] == fields[..index];
      var key := fields[index].0;
      if key != FieldNameId {
        var expressionValue := Placeholder(index);
        var value := AttrOf(fields[index].1);
        expressions := expressions + [key + " = " + expressionValue];
        values := values[expressionValue := value];
      }
      index := index + 1;
    }
    assert fields[..|fields|] == fields;
    e := Expression(Join(expressions, keysSeparator), values, Join(keys, "-") + "-index");
  }

  /** Every key except `id` yields exactly one clause, in the original order,
      numbered by its index in the full key list (so a gap is left where `id` was). */
  lemma {:induction false} ClausesFollowKeys(fields: Record)
    ensures var p := NonIdPositions(fields);
      && |Clauses(fields)| == |p|
      && (forall j :: 0 <= j < |p| ==>
            p[j] < |fields| && fields[p[j]].0 != FieldNameId
            && Clauses(fields)[j] == Clause(fields[p[j]].0, p[j]))
      && (forall j, k :: 0 <= j < k < |p| ==> p[j] < p[k])
      && (forall i :: 0 <= i < |fields| && fields[i].0 != FieldNameId ==> i in p)
  {
    NonIdPositionsSpec(fields);
    ClausesAtPositions(fields);
  }

  /** The non-`id` positions are in range, increasing, and all there. */
  lemma {:induction false} NonIdPositionsSpec(fields: Record)
    ensures var p := NonIdPositions(fields);
      && (forall j :: 0 <= j < |p| ==> p[j] < |fields| && fields[p[j]].0 != FieldNameId)
      && (forall j, k :: 0 <= j < k < |p| ==> p[j] < p[k])
      && (forall i :: 0 <= i < |fields| && fields[i].0 != FieldNameId ==> i in p)
  {
    if fields != [] {
      var n := |fields| - 1;
      var pre := fields[..n];
      NonIdPositionsSpec(pre);
      var p := NonIdPositions(pre);
      var p' := p + (if fields[n].0 != FieldNameId then [n] else []);
      assert NonIdPositions(fields) == p';
      forall j | 0 <= j < |p'|
        ensures p'[j] < |fields| && fields[p'[j]].0 != FieldNameId
      {
        if j < |p| {
          assert p'[j] == p[j] && pre[p[j]] == fields[p[j]];
        }
      }
      forall i | 0 <= i < |fields| && fields[i].0 != FieldNameId
        ensures i in p'
      {
        if i < n {
          assert pre[i] == fields[i];
        }
      }
    }
  }

  /** The j-th clause is the one of the j-th non-`id` position. */
  lemma {:induction false} ClausesAtPositions(fields: Record)
    ensures var p := NonIdPositions(fields);
      && |Clauses(fields)| == |p|
      && (forall j :: 0 <= j < |p| ==> p[j] < |fields| && Clauses(fields)[j] == Clause(fields[p[j]].0, p[j]))
  {
    if fields != [] {
      var n := |fields| - 1;
      var pre := fields[..n];
      ClausesAtPositions(pre);
      var p := NonIdPositions(pre);
      var c := Clauses(pre);
      var p' := p + (if fields[n].0 != FieldNameId then [n] else []);
      var c' := c + (if fields[n].0 != FieldNameId then [Clause(fields[n].0, n)] else []);
      assert NonIdPositions(fields) == p' && Clauses(fields) == c';
      forall j | 0 <= j < |p'|
        ensures p'[j] < |fields| && c'[j] == Clause(fields[p'[j]].0, p'[j])
      {
        if j < |p| {
          assert p'[j] == p[j] && c'[j] == c[j] && pre[p[j]] == fields[p[j]];
        }
      }
    }
  }

  /** The placeholder map holds exactly one entry per key other than `id`, the
      entry for position `i` being `:value${i}`, bound to that key's value
      (stringified when it is an array or an object). */
  lemma {:induction false} ValuesArePlaceholders(fields: Record)
    ensures forall i :: 0 <= i < |fields| && fields[i].0 != FieldNameId ==>
              Placeholder(i) in Values(fields) && Values(fields)[Placeholder(i)] == AttrOf(fields[i].1)
    ensures forall p :: p in Values(fields) ==>
              exists i :: 0 <= i < |fields| && fields[i].0 != FieldNameId && p == Placeholder(i)
  {
    if fields != [] {
      var n := |fields| - 1;
      var pre := fields[..n];
      ValuesArePlaceholders(pre);
      assert forall i :: 0 <= i < n ==> pre[i] == fields[i];
      var v := Values(pre);
      if fields[n].0 != FieldNameId {
        assert Values(fields) == v[Placeholder(n) := AttrOf(fields[n].1)];
        forall i | 0 <= i < n
          ensures Placeholder(i) != Placeholder(n)
        {
          PlaceholderInjective(i, n);
        }
      } else {
        assert Values(fields) == v;
      }
    }
  }

  /** The value bound to a key's placeholder is `opt.fields[key]`, the value
      read by the key's name, for the plain objects `JSON.parse` gives (their
      property names are distinct). */
  lemma ValuesReadByKey(fields: Record)
    requires DistinctKeys(fields)
    ensures forall i :: 0 <= i < |fields| && fields[i].0 != FieldNameId ==>
              Placeholder(i) in Values(fields) && Values(fields)[Placeholder(i)] == AttrOf(Get(fields, fields[i].0))
  {
    ValuesArePlaceholders(fields);
    forall i | 0 <= i < |fields| && fields[i].0 != FieldNameId
      ensures Placeholder(i) in Values(fields) && Values(fields)[Placeholder(i)] == AttrOf(Get(fields, fields[i].0))
    {
      GetAtPosition(fields, i);
    }
  }

  /** Every key other than `id` has its clause. */
  lemma EveryFieldHasClause(fields: Record)
    ensures forall i :: 0 <= i < |fields| && fields[i].0 != FieldNameId ==> Clause(fields[i].0, i) in Clauses(fields)
  {
    ClausesFollowKeys(fields);
    var p := NonIdPositions(fields);
    forall i | 0 <= i < |fields| && fields[i].0 != FieldNameId
      ensures Clause(fields[i].0, i) in Clauses(fields)
    {
      var j :| 0 <= j < |p| && p[j] == i;
      assert Clauses(fields)[j] == Clause(fields[i].0, i);
    }
  }

  /** The `id` key never gives a clause: every clause comes from another key. */
  lemma NoClauseForId(fields: Record)
    ensures forall j :: 0 <= j < |Clauses(fields)| ==>
              exists i :: 0 <= i < |fields| && fields[i].0 != FieldNameId && Clauses(fields)[j] == Clause(fields[i].0, i)
  {
    ClausesFollowKeys(fields);
    var p := NonIdPositions(fields);
    forall j | 0 <= j < |Clauses(fields)|
      ensures exists i :: 0 <= i < |fields| && fields[i].0 != FieldNameId && Clauses(fields)[j] == Clause(fields[i].0, i)
    {
      var i := p[j];
      assert 0 <= i < |fields| && fields[i].0 != FieldNameId && Clauses(fields)[j] == Clause(fields[i].0, i);
    }
  }

  /** On an empty field map the expression is empty and the index is `-index`. */
  lemma EmptyExpression(keysSeparator: string)
    ensures ExpressionOf([], keysSeparator) == Expression("", map[], "-index")
  {
  }
}
