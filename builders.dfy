/**
 * The statement builders of the create and update handlers, for any schema:
 * the insert binds every schema field; the partial update keeps the truthy
 * ones only, in schema order, and refuses to build anything when there is
 * none.
 */
module Builders {
  import opened Wrappers
  import opened JsValues
  import opened SqlText
  import opened Schemas

  /** The fields whose destructured value is truthy, in the order of `fields`:
      the chain of `if (field) { updates.push(...) }` checks. */
  function SelectedFields(fields: seq<string>, body: Body): (r: seq<string>)
    ensures |r| <= |fields|
    ensures forall f :: f in r ==> f in fields
  {
    if fields == [] then []
    else
      var last := fields[|fields| - 1];
      SelectedFields(fields[..|fields| - 1], body) + (if Truthy(Lookup(body, last)) then [last] else [])
  }

  /** The destructured values of `names`, in order. */
  function LookupAll(body: Body, names: seq<string>): (r: seq<JsValue>)
    ensures |r| == |names|
    ensures forall i :: 0 <= i < |names| ==> r[i] == Lookup(body, names[i])
  {
    if names == [] then [] else LookupAll(body, names[..|names| - 1]) + [Lookup(body, names[|names| - 1])]
  }

  /** The statement the update handler sends, or None for a 400 "No fields to
      update" answer. */
  function UpdateStatementFor(s: Schema, id: string, body: Body): (r: Option<Statement>)
    ensures r.Some? ==>
              && r.value.Update? && r.value.table == s.table && r.value.key == s.primaryKey && r.value.id == Str(id)
              && 0 < |r.value.columns| == |r.value.values| <= |s.fields|
              && (forall i :: 0 <= i < |r.value.columns| ==>
                    r.value.columns[i] in s.fields && Truthy(r.value.values[i]) && r.value.values[i] == Lookup(body, r.value.columns[i]))
  {
    var sel := SelectedFields(s.fields, body);
    SelectedAreTruthy(s.fields, body);
    if sel == [] then None
    else Some(Update(s.table, sel, LookupAll(body, sel), s.primaryKey, Str(id)))
  }

  function UpdateQuery(s: Schema, id: string, body: Body): (r: Option<Query>)
    ensures r.Some? ==> |r.value.params| >= 2 && r.value.params[|r.value.params| - 1] == Str(id)
    ensures r.Some? ==> forall i :: 0 <= i < |r.value.params| - 1 ==> Truthy(r.value.params[i])
  {
    match UpdateStatementFor(s, id, body)
    case None => None
    case Some(st) => Some(Render(st))
  }

  /** The update handler's builder as it is written: `updates` and `values`
      grow field by field, `sql` is extended in place, the id is pushed last. */
  method BuildUpdate(s: Schema, id: string, body: Body) returns (r: Option<Query>)
    ensures r == UpdateQuery(s, id, body)
  {
    var sql := "UPDATE " + s.table + " SET ";
    var updates, values := CollectAssignments(s.fields, body);
    UpdateQueryOf(s, id, body);
    if |updates| == 0 {
      return None;
    }
    sql := sql + Join(updates, ", ");
    sql := sql + " WHERE " + s.primaryKey + " = ?";
    values := values + [Str(id)];
    return Some(Query(sql, values));
  }

  /** The chain of `if (field) { updates.push(...); values.push(...) }`
      checks: one clause and one value per field with a truthy value, in
      the order of `fields`. */
  method CollectAssignments(fields: seq<string>, body: Body) returns (updates: seq<string>, values: seq<JsValue>)
    ensures updates == Assignments(SelectedFields(fields, body))
    ensures values == LookupAll(body, SelectedFields(fields, body))
  {
    updates, values := [], [];
    ghost var selected: seq<string> := [];
    for i := 0 to |fields|
      invariant selected == SelectedFields(fields[..i], body)
      invariant updates == Assignments(selected)
      invariant values == LookupAll(body, selected)
    {
      var field := fields[i];
      var value := Lookup(body, field);
      BuildStep(fields, i, body, selected);
      if Truthy(value) {
        updates := updates + [field + " = ?"];
        values := values + [value];
        selected := selected + [field];
      }
    }
    assert fields[..|fields|] == fields;
  }

  /** `UpdateQuery` spelled out in the terms the builder assembles. */
  lemma UpdateQueryOf(s: Schema, id: string, body: Body)
    ensures var sel := SelectedFields(s.fields, body);
            UpdateQuery(s, id, body)
            == if |Assignments(sel)| == 0 then None
               else Some(Query("UPDATE " + s.table + " SET " + Join(Assignments(sel), ", ") + " WHERE " + s.primaryKey + " = ?",
                               LookupAll(body, sel) + [Str(id)]))
  {
  }

  /** One turn of the builder's loop: the field list grows by one field, and
      the clauses and values by that field's when its value is truthy. */
  lemma BuildStep(fields: seq<string>, i: nat, body: Body, selected: seq<string>)
    requires i < |fields|
    requires selected == SelectedFields(fields[..i], body)
    ensures SelectedFields(fields[..i + 1], body)
            == if Truthy(Lookup(body, fields[i])) then selected + [fields[i]] else selected
    ensures Assignments(selected + [fields[i]]) == Assignments(selected) + [fields[i] + " = ?"]
    ensures LookupAll(body, selected + [fields[i]]) == LookupAll(body, selected) + [Lookup(body, fields[i])]
  {
    SelectedStep(fields, i, body);
    AssignmentsSnoc(selected, fields[i]);
    LookupAllSnoc(body, selected, fields[i]);
  }

  lemma SelectedStep(fields: seq<string>, i: nat, body: Body)
    requires i < |fields|
    ensures SelectedFields(fields[..i + 1], body)
            == SelectedFields(fields[..i], body) + (if Truthy(Lookup(body, fields[i])) then [fields[i]] else [])
  {
    assert fields[..i + 1][..i] == fields[..i];
  }

  lemma AssignmentsSnoc(names: seq<string>, name: string)
    ensures Assignments(names + [name]) == Assignments(names) + [Assignment(name)]
  {
    assert forall i :: 0 <= i < |names| ==> (names + [name])[i] == names[i];
  }

  lemma LookupAllSnoc(body: Body, names: seq<string>, name: string)
    ensures LookupAll(body, names + [name]) == LookupAll(body, names) + [Lookup(body, name)]
  {
    assert (names + [name])[..|names|] == names;
  }

  /** A field is selected exactly when it is one of the fields and its value
      is truthy: `undefined`, `null`, `""`, `0` and `false` are all skipped,
      present in the body or not. */
  lemma {:induction false} SelectedIff(fields: seq<string>, body: Body, f: string)
    ensures f in SelectedFields(fields, body) <==> f in fields && Truthy(Lookup(body, f))
  {
    if fields != [] {
      var init := fields[..|fields| - 1];
      SelectedIff(init, body, f);
      assert fields == init + [fields[|fields| - 1]];
    }
  }

  /** Every selected field has a truthy value. */
  lemma SelectedAreTruthy(fields: seq<string>, body: Body)
    ensures forall f :: f in SelectedFields(fields, body) ==> Truthy(Lookup(body, f))
  {
    forall f | f in SelectedFields(fields, body) ensures Truthy(Lookup(body, f)) {
      SelectedIff(fields, body, f);
    }
  }

  /** The indices of the selected fields, increasing: the clauses follow the
      order of the field list. */
  function TruthyPositions(fields: seq<string>, body: Body): (p: seq<nat>)
    ensures |p| == |SelectedFields(fields, body)|
    ensures forall k :: 0 <= k < |p| ==> p[k] < |fields| && fields[p[k]] == SelectedFields(fields, body)[k]
    ensures forall k, l :: 0 <= k < l < |p| ==> p[k] < p[l]
  {
    if fields == [] then []
    else
      var n := |fields| - 1;
      var init := fields[..n];
      var p0 := TruthyPositions(init, body);
      var hit := Truthy(Lookup(body, fields[n]));
      assert SelectedFields(fields, body) == SelectedFields(init, body) + (if hit then [fields[n]] else []);
      assert forall k :: 0 <= k < |p0| ==> p0[k] < n && fields[p0[k]] == init[p0[k]];
      p0 + (if hit then [n] else [])
  }

  /** The positions are exactly those of the truthy values. */
  lemma {:induction false} TruthyPositionsExact(fields: seq<string>, body: Body, j: nat)
    requires j < |fields|
    ensures j in TruthyPositions(fields, body) <==> Truthy(Lookup(body, fields[j]))
  {
    var n := |fields| - 1;
    var init := fields[..n];
    var p0 := TruthyPositions(init, body);
    var extra: seq<nat> := if Truthy(Lookup(body, fields[n])) then [n] else [];
    assert TruthyPositions(fields, body) == p0 + extra;
    assert forall k :: 0 <= k < |p0| ==> p0[k] < n;
    if j < n {
      TruthyPositionsExact(init, body, j);
      assert init[j] == fields[j];
      assert j !in extra;
    } else {
      assert j !in p0;
    }
  }

  /** Bodies that agree on which fields are truthy select the same fields. */
  lemma {:induction false} SelectedCongruent(fields: seq<string>, b1: Body, b2: Body)
    requires forall f :: f in fields ==> (Truthy(Lookup(b1, f)) <==> Truthy(Lookup(b2, f)))
    ensures SelectedFields(fields, b1) == SelectedFields(fields, b2)
  {
    if fields != [] {
      var init := fields[..|fields| - 1];
      assert forall f :: f in init ==> f in fields;
      SelectedCongruent(init, b1, b2);
      assert fields[|fields| - 1] in fields;
    }
  }

  /** The update is refused, and no statement is built, exactly when every
      field is absent or falsy. */
  lemma NoFieldsToUpdateIff(s: Schema, id: string, body: Body)
    ensures UpdateStatementFor(s, id, body).None? <==> forall f :: f in s.fields ==> !Truthy(Lookup(body, f))
  {
    var sel := SelectedFields(s.fields, body);
    if sel != [] {
      SelectedIff(s.fields, body, sel[0]);
    } else {
      forall f | f in s.fields ensures !Truthy(Lookup(body, f)) {
        SelectedIff(s.fields, body, f);
      }
    }
  }

  /** What a built update is: clauses for schema fields with truthy values
      only, each bound to that field's value unchanged, the route id last for
      the `WHERE <primary key> = ?` placeholder, one placeholder per bound
      value, and text made of safe characters only. */
  lemma UpdateQueryShape(s: Schema, id: string, body: Body)
    requires ValidSchema(s)
    requires UpdateStatementFor(s, id, body).Some?
    ensures var st := UpdateStatementFor(s, id, body).value;
            var q := UpdateQuery(s, id, body).value;
            && st.Update? && st.table == s.table && st.key == s.primaryKey
            && |st.columns| > 0
            && (forall c :: c in st.columns ==> c in s.fields && Truthy(Lookup(body, c)))
            && |q.params| == |st.columns| + 1
            && (forall i :: 0 <= i < |st.columns| ==> q.params[i] == Lookup(body, st.columns[i]))
            && q.params[|q.params| - 1] == Str(id)
            && Count('?', q.sql) == |q.params|
            && SafeText(q.sql)
  {
    var st := UpdateStatementFor(s, id, body).value;
    forall c | c in st.columns ensures c in s.fields && Truthy(Lookup(body, c)) {
      SelectedIff(s.fields, body, c);
    }
    RenderIsParameterised(st);
  }

  /** The parts of a built update the store looks at: the table, the key,
      the id, and one value per column, every column a schema field. */
  lemma UpdateStatementBasics(s: Schema, id: string, body: Body)
    requires UpdateStatementFor(s, id, body).Some?
    ensures var st := UpdateStatementFor(s, id, body).value;
            && st == Update(s.table, st.columns, st.values, s.primaryKey, Str(id))
            && |st.columns| == |st.values|
            && forall c :: c in st.columns ==> c in s.fields
  {
    var st := UpdateStatementFor(s, id, body).value;
    forall c | c in st.columns ensures c in s.fields {
      SelectedIff(s.fields, body, c);
    }
  }

  /** The statement text depends only on which fields are truthy: neither the
      supplied values nor the id ever reach it. */
  lemma UpdateTextIgnoresValues(s: Schema, id1: string, id2: string, b1: Body, b2: Body)
    requires forall f :: f in s.fields ==> (Truthy(Lookup(b1, f)) <==> Truthy(Lookup(b2, f)))
    ensures UpdateQuery(s, id1, b1).None? <==> UpdateQuery(s, id2, b2).None?
    ensures UpdateQuery(s, id1, b1).Some? ==> UpdateQuery(s, id1, b1).value.sql == UpdateQuery(s, id2, b2).value.sql
  {
    SelectedCongruent(s.fields, b1, b2);
  }

  /** The order in which the body's keys arrive does not matter. */
  lemma UpdateIgnoresKeyOrder(s: Schema, id: string, b1: Body, b2: Body)
    requires DistinctKeys(b1) && DistinctKeys(b2)
    requires multiset(b1) == multiset(b2)
    ensures UpdateStatementFor(s, id, b1) == UpdateStatementFor(s, id, b2)
  {
    forall f ensures Lookup(b1, f) == Lookup(b2, f) {
      LookupIgnoresOrder(b1, b2, f);
    }
    SelectedCongruent(s.fields, b1, b2);
    var sel := SelectedFields(s.fields, b1);
    assert LookupAll(b1, sel) == LookupAll(b2, sel);
  }

  /** When exactly one field is truthy, exactly that field is selected. */
  lemma {:induction false} SelectedOnly(fields: seq<string>, body: Body, f: string)
    requires Distinct(fields) && f in fields
    requires forall g :: g in fields ==> (Truthy(Lookup(body, g)) <==> g == f)
    ensures SelectedFields(fields, body) == [f]
  {
    var n := |fields| - 1;
    var init := fields[..n];
    assert fields == init + [fields[n]];
    assert Distinct(init);
    if fields[n] == f {
      assert f !in init;
      forall g | g in init ensures !Truthy(Lookup(body, g)) { }
      if SelectedFields(init, body) != [] {
        SelectedIff(init, body, SelectedFields(init, body)[0]);
      }
    } else {
      SelectedOnly(init, body, f);
    }
  }

  /** A body `{ field: value }` with a truthy value for a schema field updates
      exactly that field, with the value unchanged. */
  lemma SingleTruthyField(s: Schema, id: string, f: string, v: JsValue)
    requires Distinct(s.fields) && f in s.fields && Truthy(v)
    ensures UpdateStatementFor(s, id, [(f, v)]) == Some(Update(s.table, [f], [v], s.primaryKey, Str(id)))
  {
    SelectedOnly(s.fields, [(f, v)], f);
    assert Lookup([(f, v)], f) == v;
    assert LookupAll([(f, v)], [f]) == [v];
  }

  /** A body `{ field: value }` with a falsy value, such as `{ email: "" }`,
      is refused with "No fields to update". */
  lemma SingleFalsyField(s: Schema, id: string, f: string, v: JsValue)
    requires !Truthy(v)
    ensures UpdateStatementFor(s, id, [(f, v)]) == None
  {
    NoFieldsToUpdateIff(s, id, [(f, v)]);
  }

  /** The insert handler's statement: every field in schema order, each bound
      to its destructured value, `undefined` when the body lacks it. */
  function InsertStatementFor(s: Schema, body: Body): (r: Statement)
    ensures r.Insert? && r.table == s.table && r.columns == s.fields
    ensures |r.values| == |s.fields| && forall i :: 0 <= i < |s.fields| ==> r.values[i] == Lookup(body, s.fields[i])
  {
    Insert(s.table, s.fields, LookupAll(body, s.fields))
  }

  /** The insert binds one value per column, in column order, each the
      supplied value or `undefined`, with one placeholder per value and text
      made of safe characters. */
  lemma InsertQueryShape(s: Schema, body: Body)
    requires ValidSchema(s)
    ensures var q := Render(InsertStatementFor(s, body));
            && |q.params| == |s.fields|
            && (forall i :: 0 <= i < |s.fields| ==> q.params[i] == Lookup(body, s.fields[i]))
            && (forall i :: 0 <= i < |s.fields| && (forall j :: 0 <= j < |body| ==> body[j].0 != s.fields[i])
                  ==> q.params[i] == Undefined)
            && Count('?', q.sql) == |q.params|
            && SafeText(q.sql)
  {
    RenderIsParameterised(InsertStatementFor(s, body));
  }

  /** 12 bound values for students, 5 for courses and for enrollments. */
  lemma InsertArity(kind: EntityKind, body: Body)
    ensures |Render(InsertStatementFor(SchemaFor(kind), body)).params|
            == match kind case Student => 12 case Course => 5 case Enrollment => 5
  {
    SchemaValid(kind);
  }
}
