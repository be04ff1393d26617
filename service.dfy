/**
 * The fifteen routes against the abstract store: each request builds its
 * statement, the store runs it, and the handler turns the store's answer into
 * the response.  The lemmas are the round trips and frames a client of the
 * API relies on.
 */
module Service {
  import opened JsValues
  import opened SqlText
  import opened Schemas
  import opened Builders
  import opened Handlers
  import opened TableStore

  /** The five routes of one table: `POST /<table>`, `GET /<table>`,
      `GET /<table>/:id`, `PUT /<table>/:id` and `DELETE /<table>/:id`. */
  datatype Route =
    | Post(body: Body)
    | GetAll
    | GetById(id: string)
    | Put(id: string, body: Body)
    | Remove(id: string)

  /** A route of one of the three tables. */
  datatype Request = Request(kind: EntityKind, route: Route)

  /** The store afterwards, the statements sent to it, and the response. */
  datatype Outcome = Outcome(db: Db, issued: seq<Query>, response: Response)

  /** The store holds the table of `s` with the schema's key and columns. */
  predicate Provisioned(db: Db, s: Schema) {
    && s.table in db
    && db[s.table].primaryKey == s.primaryKey
    && db[s.table].columns == s.fields
  }

  /** POST: insert every field, answer 201 with the new key. */
  function HandlePost(s: Schema, db: Db, body: Body): (o: Outcome)
    requires ValidDb(db)
    ensures ValidDb(o.db)
    ensures o.response.status == 201 || o.response.status == 500
    ensures o.issued == [Render(InsertStatementFor(s, body))]
  {
    var st := InsertStatementFor(s, body);
    var (db', reply) := Write(db, st);
    Outcome(db', [Render(st)], CreateResponse(s, reply))
  }

  /** GET of the collection. */
  function HandleList(s: Schema, db: Db): (o: Outcome)
    requires ValidDb(db)
    ensures o.db == db
    ensures o.response.status == 200 || o.response.status == 500
    ensures o.issued == [Render(SelectAll(s.table))]
  {
    var st := SelectAll(s.table);
    Outcome(db, [Render(st)], ListResponse(s, Select(db, st)))
  }

  /** GET by id. */
  function HandleGet(s: Schema, db: Db, id: string): (o: Outcome)
    requires ValidDb(db)
    ensures o.db == db
    ensures o.response.status in {200, 404, 500}
    ensures o.issued == [Render(SelectByKey(s.table, s.primaryKey, Str(id)))]
  {
    var st := SelectByKey(s.table, s.primaryKey, Str(id));
    Outcome(db, [Render(st)], GetResponse(s, Select(db, st)))
  }

  /** PUT: nothing is sent when no field is truthy. */
  function HandlePut(s: Schema, db: Db, id: string, body: Body): (o: Outcome)
    requires ValidDb(db)
    ensures ValidDb(o.db)
    ensures o.response.status in {200, 400, 404, 500}
    ensures o.response.status == 400 <==> o.issued == []
    ensures o.issued == [] ==> o.db == db && o.response == NoFieldsToUpdate()
    ensures o.issued == [] <==> UpdateStatementFor(s, id, body).None?
    ensures o.issued != [] ==> o.issued == [UpdateQuery(s, id, body).value]
  {
    var built := UpdateStatementFor(s, id, body);
    if built.None? then Outcome(db, [], NoFieldsToUpdate())
    else
      var st := built.value;
      var (db', reply) := Write(db, st);
      Outcome(db', [Render(st)], UpdateResponse(s, reply))
  }

  /** DELETE by id. */
  function HandleRemove(s: Schema, db: Db, id: string): (o: Outcome)
    requires ValidDb(db)
    ensures ValidDb(o.db)
    ensures o.response.status in {200, 404, 500}
    ensures o.issued == [Render(Delete(s.table, s.primaryKey, Str(id)))]
  {
    var st := Delete(s.table, s.primaryKey, Str(id));
    var (db', reply) := Write(db, st);
    Outcome(db', [Render(st)], DeleteResponse(s, reply))
  }

  /** One route of the table `s` describes. */
  function Handle(s: Schema, db: Db, route: Route): (o: Outcome)
    requires ValidDb(db)
    ensures ValidDb(o.db)
    ensures o.response.status in {200, 201, 400, 404, 500}
    ensures o.response.status == 201 ==> route.Post?
    ensures o.response.status == 400 <==> o.issued == []
    ensures o.response.status == 400 ==> route.Put? && o.db == db
    ensures |o.issued| <= 1
    ensures route.GetAll? || route.GetById? ==> o.db == db
  {
    match route
    case Post(body) => HandlePost(s, db, body)
    case GetAll => HandleList(s, db)
    case GetById(id) => HandleGet(s, db, id)
    case Put(id, body) => HandlePut(s, db, id, body)
    case Remove(id) => HandleRemove(s, db, id)
  }

  /** The fifteen routes of the application. */
  function Serve(db: Db, req: Request): (o: Outcome)
    requires ValidDb(db)
    ensures ValidDb(o.db)
    ensures o.response.status in {200, 201, 400, 404, 500}
    ensures o.response.status == 201 ==> req.route.Post?
    ensures o.response.status == 400 <==> o.issued == []
    ensures o.response.status == 400 ==> req.route.Put? && o.db == db
    ensures |o.issued| <= 1
  {
    Handle(SchemaFor(req.kind), db, req.route)
  }

  /** Every statement a route sends is parameterised: its text is fixed SQL
      over safe characters and holds one placeholder per bound value. */
  lemma IssuedQueriesParameterised(s: Schema, db: Db, route: Route)
    requires ValidSchema(s) && ValidDb(db)
    ensures forall q :: q in Handle(s, db, route).issued ==> Count('?', q.sql) == |q.params| && SafeText(q.sql)
  {
    match route
    case Post(body) =>
      InsertQueryShape(s, body);
    case GetAll =>
      RenderIsParameterised(SelectAll(s.table));
    case GetById(id) =>
      RenderIsParameterised(SelectByKey(s.table, s.primaryKey, Str(id)));
    case Put(id, body) =>
      if UpdateStatementFor(s, id, body).Some? {
        UpdateQueryShape(s, id, body);
      }
    case Remove(id) =>
      RenderIsParameterised(Delete(s.table, s.primaryKey, Str(id)));
  }

  /** The same for the three tables of the application. */
  lemma ServedQueriesParameterised(db: Db, req: Request)
    requires ValidDb(db)
    ensures forall q :: q in Serve(db, req).issued ==> Count('?', q.sql) == |q.params| && SafeText(q.sql)
  {
    SchemaValid(req.kind);
    IssuedQueriesParameterised(SchemaFor(req.kind), db, req.route);
  }

  /** A table the store lacks makes every route that reaches the store
      answer 500. */
  lemma MissingTableIsServerError(s: Schema, db: Db, route: Route)
    requires ValidDb(db)
    requires s.table !in db
    ensures var o := Handle(s, db, route);
            o.db == db && (o.response.status == 500 || o.response == NoFieldsToUpdate())
  {
  }

  /** A PUT whose body has no truthy field is refused with 400, sends
      nothing and changes nothing, whatever the store holds. */
  lemma PutWithoutFields(s: Schema, db: Db, id: string, body: Body)
    requires ValidDb(db)
    requires forall f :: f in s.fields ==> !Truthy(Lookup(body, f))
    ensures Handle(s, db, Put(id, body)) == Outcome(db, [], NoFieldsToUpdate())
  {
    NoFieldsToUpdateIff(s, id, body);
  }

  /** POST stores a row under the next key, every field taking the supplied
      value or NULL, and answers 201 with that key. */
  lemma PostStoresRow(s: Schema, db: Db, body: Body)
    requires ValidSchema(s) && ValidDb(db) && Provisioned(db, s)
    ensures var t := db[s.table];
            var o := Handle(s, db, Post(body));
            && o.response == Response(201, CreatedBody(s.title + " created successfully", s.primaryKey, t.nextId))
            && Provisioned(o.db, s)
            && o.db[s.table].rows == t.rows[t.nextId := o.db[s.table].rows[t.nextId]]
            && (forall f :: f in s.fields ==> o.db[s.table].rows[t.nextId][f] == Stored(Lookup(body, f)))
  {
    var t := db[s.table];
    var rec := NewRecord(s.fields, s.fields, LookupAll(body, s.fields));
    assert InsertRow(db, s.table, s.fields, LookupAll(body, s.fields)).1 == Written(1, t.nextId);
    forall f | f in s.fields
      ensures rec[f] == Stored(Lookup(body, f))
    {
      var j := IndexOf(s.fields, f);
      assert LookupAll(body, s.fields)[j] == Lookup(body, f);
    }
  }

  /** GET of a stored key answers 200 with that row. */
  lemma GetFindsRow(s: Schema, db: Db, k: nat)
    requires ValidDb(db) && Provisioned(db, s)
    requires k in db[s.table].rows
    ensures Handle(s, db, GetById(Decimal(k))) ==
            Outcome(db, [Render(SelectByKey(s.table, s.primaryKey, Str(Decimal(k))))],
                    Response(200, RecordBody(RowOf(db[s.table], k))))
  {
    ParseDecimalRoundTrip(k);
  }

  /** POST then GET of the key it answered: 200 with exactly the stored row,
      the key first and then every schema field with the value supplied, or
      NULL. */
  lemma CreateThenGet(s: Schema, db: Db, body: Body)
    requires ValidSchema(s) && ValidDb(db) && Provisioned(db, s)
    ensures var n := db[s.table].nextId;
            var o1 := Handle(s, db, Post(body));
            var o2 := Handle(s, o1.db, GetById(Decimal(n)));
            && o1.response.status == 201 && o1.response.payload.id == n
            && o2.db == o1.db
            && o2.response.status == 200
            && o2.response.payload.RecordBody?
            && |o2.response.payload.record| == |s.fields| + 1
            && o2.response.payload.record[0] == (s.primaryKey, Num(n as real))
            && (forall i :: 0 <= i < |s.fields| ==>
                  o2.response.payload.record[i + 1] == (s.fields[i], Stored(Lookup(body, s.fields[i]))))
  {
    var n := db[s.table].nextId;
    PostStoresRow(s, db, body);
    var o1 := Handle(s, db, Post(body));
    assert n in o1.db[s.table].rows;
    GetFindsRow(s, o1.db, n);
    var row := RowOf(o1.db[s.table], n);
    forall i | 0 <= i < |s.fields|
      ensures row[i + 1] == (s.fields[i], Stored(Lookup(body, s.fields[i])))
    {
      assert s.fields[i] in s.fields;
    }
  }

  /** After a DELETE of a key, a GET of it answers 404; the DELETE itself
      answered 200 exactly when the key named a row, and 404 otherwise. */
  lemma DeleteThenGet(s: Schema, db: Db, id: string)
    requires ValidDb(db) && Provisioned(db, s)
    ensures var o1 := Handle(s, db, Remove(id));
            var o2 := Handle(s, o1.db, GetById(id));
            && (o1.response.status == 200 <==> ParseDecimal(id).Some? && ParseDecimal(id).value in db[s.table].rows)
            && (o1.response.status == 200 || o1.response.status == 404)
            && o2.response.status == 404
  {
  }

  /** A PUT of a key that names no row changes nothing; it answers 404,
      never 200, when some field is truthy, and 400 otherwise. */
  lemma PutMissingRow(s: Schema, db: Db, id: string, body: Body)
    requires ValidSchema(s) && ValidDb(db) && Provisioned(db, s)
    requires ParseDecimal(id).None? || ParseDecimal(id).value !in db[s.table].rows
    ensures var o := Handle(s, db, Put(id, body));
            && o.db == db
            && (o.response.status == 404 <==> exists f :: f in s.fields && Truthy(Lookup(body, f)))
            && (o.response.status == 400 <==> forall f :: f in s.fields ==> !Truthy(Lookup(body, f)))
  {
    NoFieldsToUpdateIff(s, id, body);
    if UpdateStatementFor(s, id, body).Some? {
      UpdateStatementBasics(s, id, body);
    }
  }

  /** Merging an update's bindings into a row rewrites exactly the fields
      with truthy values, each to the supplied value. */
  lemma MergeOfUpdate(s: Schema, id: string, body: Body, rec: Record)
    requires ValidSchema(s)
    requires UpdateStatementFor(s, id, body).Some?
    ensures var st := UpdateStatementFor(s, id, body).value;
            var merged := Merge(rec, st.columns, st.values);
            forall f :: f in s.fields && f in rec ==>
              merged[f] == if Truthy(Lookup(body, f)) then Lookup(body, f) else rec[f]
  {
    var st := UpdateStatementFor(s, id, body).value;
    UpdateQueryShape(s, id, body);
    forall f | f in s.fields && f in rec
      ensures Merge(rec, st.columns, st.values)[f] == if Truthy(Lookup(body, f)) then Lookup(body, f) else rec[f]
    {
      SelectedIff(s.fields, body, f);
      if f in st.columns {
        var j := IndexOf(st.columns, f);
        assert st.values[j] == Lookup(body, f);
      }
    }
  }

  /** An UPDATE by a key that names a row matches it and stores the merged
      row. */
  lemma UpdateRowHits(db: Db, table: string, cols: seq<string>, vals: seq<JsValue>, key: string, k: nat)
    requires ValidDb(db) && table in db && key == db[table].primaryKey
    requires KnownColumns(db[table], cols) && |cols| == |vals|
    requires k in db[table].rows
    ensures var t := db[table];
            UpdateRow(db, table, cols, vals, key, Str(Decimal(k)))
            == (db[table := t.(rows := t.rows[k := Merge(t.rows[k], cols, vals)])], Written(1, 0))
  {
    ParseDecimalRoundTrip(k);
  }

  /** A PUT of an existing row with some truthy field answers 200 and
      stores the merged row. */
  lemma PutWritesRow(s: Schema, db: Db, k: nat, body: Body)
    requires ValidSchema(s) && ValidDb(db) && Provisioned(db, s)
    requires k in db[s.table].rows
    requires UpdateStatementFor(s, Decimal(k), body).Some?
    ensures var t := db[s.table];
            var st := UpdateStatementFor(s, Decimal(k), body).value;
            var o := Handle(s, db, Put(Decimal(k), body));
            && o.response == Response(200, MessageBody(s.title + " updated successfully"))
            && o.db == db[s.table := t.(rows := t.rows[k := Merge(t.rows[k], st.columns, st.values)])]
  {
    var id := Decimal(k);
    var t := db[s.table];
    var st := UpdateStatementFor(s, id, body).value;
    assert KnownColumns(t, st.columns);
    UpdateRowHits(db, s.table, st.columns, st.values, s.primaryKey, k);
    var db' := db[s.table := t.(rows := t.rows[k := Merge(t.rows[k], st.columns, st.values)])];
    assert Write(db, st) == (db', Written(1, 0));
    PutSendsUpdate(s, db, id, body);
  }

  /** A PUT that builds a statement answers from the store's reply to it. */
  lemma PutSendsUpdate(s: Schema, db: Db, id: string, body: Body)
    requires ValidDb(db)
    requires UpdateStatementFor(s, id, body).Some?
    ensures var st := UpdateStatementFor(s, id, body).value;
            var o := Handle(s, db, Put(id, body));
            o.db == Write(db, st).0 && o.response == UpdateResponse(s, Write(db, st).1)
  {
  }

  /** A PUT of an existing row with some truthy field answers 200; it
      rewrites exactly the fields with truthy values, leaves the row's other
      fields and every other row as they were, and hands out no key. */
  lemma PutExistingRow(s: Schema, db: Db, k: nat, body: Body)
    requires ValidSchema(s) && ValidDb(db) && Provisioned(db, s)
    requires k in db[s.table].rows
    requires exists f :: f in s.fields && Truthy(Lookup(body, f))
    ensures var t := db[s.table];
            var o := Handle(s, db, Put(Decimal(k), body));
            var t' := o.db[s.table];
            && o.response == Response(200, MessageBody(s.title + " updated successfully"))
            && o.db.Keys == db.Keys
            && (forall name :: name in db && name != s.table ==> o.db[name] == db[name])
            && t'.primaryKey == t.primaryKey && t'.columns == t.columns && t'.nextId == t.nextId
            && t'.rows.Keys == t.rows.Keys
            && (forall j :: j in t.rows && j != k ==> t'.rows[j] == t.rows[j])
            && (forall f :: f in s.fields ==>
                  t'.rows[k][f] == if Truthy(Lookup(body, f)) then Lookup(body, f) else t.rows[k][f])
  {
    var t := db[s.table];
    var id := Decimal(k);
    NoFieldsToUpdateIff(s, id, body);
    PutWritesRow(s, db, k, body);
    var st := UpdateStatementFor(s, id, body).value;
    var merged := Merge(t.rows[k], st.columns, st.values);
    var o := Handle(s, db, Put(id, body));
    assert o.db == db[s.table := t.(rows := t.rows[k := merged])];
    MergeOfUpdate(s, id, body, t.rows[k]);
    forall f | f in s.fields
      ensures merged[f] == if Truthy(Lookup(body, f)) then Lookup(body, f) else t.rows[k][f]
    {
      assert f in t.rows[k];
    }
    RowRewriteFrame(db, s.table, k, merged);
    assert o.response == Response(200, MessageBody(s.title + " updated successfully"));
  }

  /** Rewriting one row of one table leaves the other tables, the table's
      key, columns, counter and other rows as they were. */
  lemma RowRewriteFrame(db: Db, table: string, k: nat, rec: Record)
    requires table in db && k in db[table].rows
    ensures var t := db[table];
            var db' := db[table := t.(rows := t.rows[k := rec])];
            var t' := db'[table];
            && db'.Keys == db.Keys
            && (forall name :: name in db && name != table ==> db'[name] == db[name])
            && t'.primaryKey == t.primaryKey && t'.columns == t.columns && t'.nextId == t.nextId
            && t'.rows.Keys == t.rows.Keys
            && (forall j :: j in t.rows && j != k ==> t'.rows[j] == t.rows[j])
            && t'.rows[k] == rec
  {
  }

  /** PUT then GET of an existing row: the row comes back with the key first,
      the truthy fields of the body at their new values and every other field
      as it was. */
  lemma PutThenGet(s: Schema, db: Db, k: nat, body: Body)
    requires ValidSchema(s) && ValidDb(db) && Provisioned(db, s)
    requires k in db[s.table].rows
    requires exists f :: f in s.fields && Truthy(Lookup(body, f))
    ensures var old_row := db[s.table].rows[k];
            var o1 := Handle(s, db, Put(Decimal(k), body));
            var o2 := Handle(s, o1.db, GetById(Decimal(k)));
            && o1.response.status == 200
            && o2.response.status == 200
            && o2.response.payload.RecordBody?
            && |o2.response.payload.record| == |s.fields| + 1
            && o2.response.payload.record[0] == (s.primaryKey, Num(k as real))
            && (forall i :: 0 <= i < |s.fields| ==>
                  o2.response.payload.record[i + 1]
                  == (s.fields[i], if Truthy(Lookup(body, s.fields[i])) then Lookup(body, s.fields[i]) else old_row[s.fields[i]]))
  {
    PutExistingRow(s, db, k, body);
    var o1 := Handle(s, db, Put(Decimal(k), body));
    assert Provisioned(o1.db, s);
    GetFindsRow(s, o1.db, k);
    var row := RowOf(o1.db[s.table], k);
    forall i | 0 <= i < |s.fields|
      ensures row[i + 1] == (s.fields[i], if Truthy(Lookup(body, s.fields[i])) then Lookup(body, s.fields[i]) else db[s.table].rows[k][s.fields[i]])
    {
      assert s.fields[i] in s.fields;
    }
  }

  /** GET of the collection answers 200 with exactly the stored rows. */
  lemma ListShowsRows(s: Schema, db: Db)
    requires ValidDb(db) && Provisioned(db, s)
    ensures var t := db[s.table];
            var o := Handle(s, db, GetAll);
            && o.db == db
            && o.response.status == 200
            && o.response.payload.RowsBody?
            && |o.response.payload.rows| == |t.rows|
            && (forall k :: k in t.rows ==> RowOf(t, k) in o.response.payload.rows)
            && (forall row :: row in o.response.payload.rows ==> exists k :: k in t.rows && row == RowOf(t, k))
  {
  }

  /** POST then GET of the collection: the new row is listed beside every
      row that was stored before, and the list has grown by one. */
  lemma {:induction false} PostThenList(s: Schema, db: Db, body: Body)
    requires ValidSchema(s) && ValidDb(db) && Provisioned(db, s)
    ensures var t := db[s.table];
            var o1 := Handle(s, db, Post(body));
            var o2 := Handle(s, o1.db, GetAll);
            && o2.response.status == 200
            && o2.response.payload.RowsBody?
            && |o2.response.payload.rows| == |t.rows| + 1
            && RowOf(o1.db[s.table], t.nextId) in o2.response.payload.rows
            && (forall k :: k in t.rows ==> RowOf(t, k) in o2.response.payload.rows)
  {
    var t := db[s.table];
    var st := InsertStatementFor(s, body);
    var t1 := t.(rows := t.rows[t.nextId := NewRecord(t.columns, st.columns, st.values)], nextId := t.nextId + 1);
    var db1 := db[s.table := t1];
    assert Handle(s, db, Post(body)).db == db1;
    assert ValidDb(db1) && Provisioned(db1, s);
    InsertedRowsListed(t, t1);
    ListShowsRows(s, db1);
  }

  /** A table after an insert holds one more row, under the old counter,
      and every earlier row reads back as before. */
  lemma InsertedRowsListed(t: Table, t1: Table)
    requires ValidTable(t) && ValidTable(t1)
    requires t1.primaryKey == t.primaryKey && t1.columns == t.columns
    requires t.nextId in t1.rows && t1.rows == t.rows[t.nextId := t1.rows[t.nextId]]
    ensures |t1.rows| == |t.rows| + 1
    ensures forall k :: k in t.rows ==> RowOf(t, k) == RowOf(t1, k)
  {
    assert t.nextId !in t.rows;
    assert t1.rows.Keys == t.rows.Keys + {t.nextId};
    forall k | k in t.rows ensures RowOf(t, k) == RowOf(t1, k) {
      assert t1.rows[k] == t.rows[k];
    }
  }
}
