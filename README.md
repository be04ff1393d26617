# ScholarTrack API: statement builders and response mapping

This project models the scholar_track CRUD service (`question2/scholartrack-api/crudapi.js`).
The service handles students, courses and enrollments, and each entity kind has five routes:

- `POST /<table>`
- `GET /<table>`
- `GET /<table>/:id`
- `PUT /<table>/:id`
- `DELETE /<table>/:id`

The source writes these handlers out three times. The model writes them once, over a
`Schema`: the table, the primary key, the ordered field list and the nouns used in messages.
The three entity kinds are the constants `Schemas.SchemaFor(Student | Course | Enrollment)`.

Modules, leaves first:

- `JsValues`: the JavaScript values that reach a handler once the JSON body is parsed.
  `Truthy` is JavaScript's ToBoolean: `undefined`, `null`, `false`, `0` and `""` are falsy.
  This is the one predicate behind the handlers' `if (field)` checks.
  A body is the list of (key, value) pairs of its JSON text. Destructuring
  (`const { f } = req.body`) is `Lookup`. When a key is repeated, the last pair wins, as it does
  in `JSON.parse`.
- `SqlText`: statements as structure (`Statement`) and as the `(sql, values)` pair handed to
  `db.query` (`Render`), and the driver's replies (`SelectReply`, `WriteReply`). It also
  proves that the rendered text uses only safe characters, holds one `?` per bound value,
  and does not depend on the values it binds.
- `Schemas`: the three schemas and their validity: identifiers, distinct fields, and a key
  that is not one of the fields.
- `Builders`: the insert statement (every field, in schema order) and the partial update.
  `BuildUpdate` is the imperative builder. `CollectAssignments` runs the chain of `if`s,
  filling `updates` and `values` step by step. `BuildUpdate` then extends `sql` and pushes
  the id. `UpdateStatementFor` / `UpdateQuery` are the functional specification it is proved
  equal to.
- `Handlers`: how the driver's answer becomes a status and a JSON body (500 / 404 / 200 /
  201 / 400), and the PUT handler as a method.
- `TableStore`: an abstract MySQL store. Each table is a map from an auto-increment key to a
  row. It gives the statements a meaning: insert, select, update-by-key and delete-by-key.
- `Service`: every route against that store. Its lemmas are the round trips and frames:
  create then get, put then get, delete then get, put of a missing row, and an empty PUT that
  sends nothing.

Three facts about the code shape the model:

- A body key that is not a schema field is silently ignored: the handlers destructure only
  the schema's fields.
- The code declares no column types and no required fields. Insert binds every field, and an
  absent one is bound as `undefined`, which the driver writes as NULL.
- The falsy-skip rule is kept exactly as written. A PUT cannot set a field to `0`, `""`,
  `false` or `null`, and `{ "email": "" }` is answered with 400 "No fields to update"
  (`Builders.SingleFalsyField`).

## Model

| member | source | states |
|---|---|---|
| `JsValues.Truthy` | question2/scholartrack-api/crudapi.js:100-147 | a value fails an `if (field)` test exactly when it is `undefined`, `null`, `false`, `0` or `""` |
| `JsValues.Lookup` | question2/scholartrack-api/crudapi.js:95 | destructuring binds `undefined` to a field the body does not have, and the last value given when a key is repeated |
| `JsValues.LookupLastWins` | question2/scholartrack-api/crudapi.js:95 | when a key is repeated, destructuring binds the value of its last pair, whatever follows it |
| `JsValues.LookupPair` | question2/scholartrack-api/crudapi.js:95 | in an object with distinct keys, destructuring binds the value paired with the name |
| `JsValues.LookupIgnoresOrder` | question2/scholartrack-api/crudapi.js:259 | the order in which a body's properties arrive does not change what destructuring binds |
| `SqlText.Join` | question2/scholartrack-api/crudapi.js:154 | `updates.join(', ')`: the empty list joins to `""`; otherwise the text starts with the first element (then the separator, when there are more) and ends with the last |
| `SqlText.Render` | question2/scholartrack-api/crudapi.js:154-156 | the text and bound values of each statement; the bound values are the insert's values, `[id]` for select-by-key and delete, `[]` for select-all, and the update's values followed by the id |
| `SqlText.Assignments` | question2/scholartrack-api/crudapi.js:101 | one `<field> = ?` clause per selected field, in order |
| `SqlText.Placeholders` | question2/scholartrack-api/crudapi.js:40 | the VALUES list of an insert holds exactly `n` placeholders |
| `SqlText.RenderTextIgnoresValues` | question2/scholartrack-api/crudapi.js:40-41 | the text sent for an insert, select-by-key, update or delete is the same whatever values and id it binds: they travel only as parameters |
| `SqlText.RenderIsParameterised` | question2/scholartrack-api/crudapi.js:154-158 | every well-formed statement's text has exactly one `?` per bound value and only safe characters (no quotes, digits or semicolons), so no supplied value can be spelled into it |
| `SqlText.UpdateText` | question2/scholartrack-api/crudapi.js:96-155 | `UPDATE t SET c1 = ?, ... WHERE key = ?` has `|cols| + 1` placeholders and is safe text |
| `SqlText.InsertText` | question2/scholartrack-api/crudapi.js:204 | `INSERT INTO t (cols) VALUES (?, ...)` has `|cols|` placeholders and is safe text |
| `Schemas.SchemaFor` | question2/scholartrack-api/crudapi.js:39 | the three schemas (the field lists at lines 39, 203 and 339, tables and keys) have distinct fields, 12, 5 and 5 of them, and a key that is not a field |
| `Schemas.SchemaValid` | question2/scholartrack-api/crudapi.js:39-40 | each schema is valid (identifiers, distinct fields, key not a field) and has 12, 5 and 5 fields |
| `Builders.SelectedFields` | question2/scholartrack-api/crudapi.js:100-147 | the fields the `if` chain keeps: no more than the schema has, each of them a schema field |
| `Builders.UpdateStatementFor` | question2/scholartrack-api/crudapi.js:96-156 | a built update targets the schema's table and key with the route id, has at least one clause, names only schema fields, and binds each clause to that field's truthy value unchanged |
| `Builders.UpdateQuery` | question2/scholartrack-api/crudapi.js:154-156 | a built query binds at least two values, the route id last and truthy values before it |
| `Builders.InsertStatementFor` | question2/scholartrack-api/crudapi.js:39-41 | the insert targets the schema's table with every field as a column, in schema order, each bound to its destructured value |
| `Builders.LookupAll` | question2/scholartrack-api/crudapi.js:41 | the bound values are the destructured values of the columns, position by position |
| `Builders.BuildUpdate` | question2/scholartrack-api/crudapi.js:93-156 | the imperative builder (collect clauses, stop when there are none, join, append `WHERE`, push id) produces exactly `UpdateQuery`: None for 400, else the rendered statement |
| `Builders.CollectAssignments` | question2/scholartrack-api/crudapi.js:100-147 | the `if` chain pushes one `<field> = ?` clause and the field's value for each truthy field, in schema order: exactly `Assignments` and `LookupAll` of `SelectedFields` |
| `Builders.BuildStep` | question2/scholartrack-api/crudapi.js:104-107 | one `if` of the chain adds a clause and a value exactly when that field's value is truthy |
| `Builders.SelectedAreTruthy` | question2/scholartrack-api/crudapi.js:100-147 | every field that gets a clause has a truthy value |
| `Builders.SelectedIff` | question2/scholartrack-api/crudapi.js:100-147 | a field gets a clause if and only if it is a schema field and its value is truthy; falsy values present in the body are skipped |
| `Builders.TruthyPositions` | question2/scholartrack-api/crudapi.js:264-283 | the selected fields sit at strictly increasing schema positions: clauses follow schema order |
| `Builders.TruthyPositionsExact` | question2/scholartrack-api/crudapi.js:400-419 | a schema position is among the clause positions exactly when its value is truthy |
| `Builders.NoFieldsToUpdateIff` | question2/scholartrack-api/crudapi.js:149-152 | no statement is built exactly when every schema field is absent or falsy |
| `Builders.UpdateQueryShape` | question2/scholartrack-api/crudapi.js:154-156 | a built update names only truthy schema fields, binds each field's value unchanged at its clause's position, binds the route id last, and has one `?` per bound value in safe text |
| `Builders.UpdateStatementBasics` | question2/scholartrack-api/crudapi.js:290-292 | a built update targets the schema's table and key with the route id, and binds one value per column, every column a schema field |
| `Builders.UpdateTextIgnoresValues` | question2/scholartrack-api/crudapi.js:101-102 | the SQL text depends only on which fields are truthy, never on the values or the id |
| `Builders.UpdateIgnoresKeyOrder` | question2/scholartrack-api/crudapi.js:100-147 | two bodies with the same properties in different orders build the same statement |
| `Builders.SelectedCongruent` | question2/scholartrack-api/crudapi.js:264-283 | bodies that agree on which fields are truthy select the same fields |
| `Builders.SelectedOnly` | question2/scholartrack-api/crudapi.js:400-419 | when exactly one field is truthy, exactly that field is selected |
| `Builders.SingleTruthyField` | question2/scholartrack-api/crudapi.js:104-107 | `{ f: v }` with `v` truthy updates exactly `f`, bound to `v` |
| `Builders.SingleFalsyField` | question2/scholartrack-api/crudapi.js:120-123 | `{ f: v }` with `v` falsy (such as `{ email: "" }`) builds nothing: 400 |
| `Builders.InsertQueryShape` | question2/scholartrack-api/crudapi.js:40-41 | the insert binds one value per column in column order, each the supplied value or `undefined`, with one `?` per value in safe text |
| `Builders.InsertArity` | question2/scholartrack-api/crudapi.js:340-341 | the insert binds 12 values for students and 5 for courses and for enrollments |
| `Handlers.NoFieldsToUpdate` | question2/scholartrack-api/crudapi.js:149-152 | the empty update is answered 400 with an error body |
| `Handlers.CreateResponse` | question2/scholartrack-api/crudapi.js:42-47 | driver error gives 500; otherwise 201 with `insertId` under the primary key's name |
| `Handlers.ListResponse` | question2/scholartrack-api/crudapi.js:57-63 | driver error gives 500; otherwise 200 with all rows |
| `Handlers.GetResponse` | question2/scholartrack-api/crudapi.js:74-84 | driver error gives 500, zero rows 404, otherwise 200 with the first row |
| `Handlers.AffectedResponse` | question2/scholartrack-api/crudapi.js:158-168 | driver error gives 500, `affectedRows === 0` 404, otherwise 200; an error body exactly when not 200 |
| `Handlers.UpdateResponse` | question2/scholartrack-api/crudapi.js:294-305 | the PUT answer: 500 / 404 / 200 by driver error and affected rows |
| `Handlers.DeleteResponse` | question2/scholartrack-api/crudapi.js:179-189 | the DELETE answer: 500 / 404 / 200 by driver error and affected rows |
| `Handlers.HandleUpdate` | question2/scholartrack-api/crudapi.js:93-169 | the PUT handler sends a statement if and only if some field is truthy; with none it answers 400, otherwise it answers from the driver's reply |
| `TableStore.Decimal` | question2/scholartrack-api/crudapi.js:72 | the decimal spelling of a key is a non-empty digit string |
| `TableStore.ParseDecimal` | question2/scholartrack-api/crudapi.js:73 | a route id names a key exactly when it is a non-empty digit string |
| `TableStore.ParseDecimalRoundTrip` | question2/scholartrack-api/crudapi.js:73 | the id a client writes for key `n` selects key `n` |
| `TableStore.DigitsValueLeadingZero` | question2/scholartrack-api/crudapi.js:237-238 | a leading zero does not change the key a digit string spells |
| `TableStore.KeyOfDecimal` | question2/scholartrack-api/crudapi.js:373-374 | a string id selects the key its digits spell: `Decimal(n)`, with or without leading zeros, selects `n` |
| `TableStore.Stored` | question2/scholartrack-api/crudapi.js:41 | an `undefined` binding is stored as NULL; other values are stored unchanged |
| `TableStore.NewRecord` | question2/scholartrack-api/crudapi.js:40 | an inserted row has exactly the table's columns; bound ones take their values, the others NULL |
| `TableStore.Merge` | question2/scholartrack-api/crudapi.js:154-155 | `SET` rewrites the named columns to their bound values and leaves the others as they were |
| `TableStore.RowOf` | question2/scholartrack-api/crudapi.js:84 | a stored row reads back as the key first, then the columns in table order |
| `TableStore.RowsBelowContents` | question2/scholartrack-api/crudapi.js:56-57 | the rows listed below a bound are exactly the stored rows with keys below it |
| `TableStore.SelectTable` | question2/scholartrack-api/crudapi.js:56-57 | `SELECT *` fails exactly for a missing table; otherwise it returns one row per stored key, every stored row, and nothing else |
| `TableStore.SelectRow` | question2/scholartrack-api/crudapi.js:73-74 | select-by-key returns the one row the id names, or no row |
| `TableStore.InsertRow` | question2/scholartrack-api/crudapi.js:40-41 | insert stores a new row under the next auto-increment key, reports it as `insertId`, and changes nothing else |
| `TableStore.UpdateRow` | question2/scholartrack-api/crudapi.js:154-158 | update-by-key merges into the row the id names (1 affected) or changes nothing (0 affected) |
| `TableStore.DeleteRow` | question2/scholartrack-api/crudapi.js:178-179 | delete-by-key removes the row the id names (1 affected) or changes nothing (0 affected) |
| `Service.HandlePost` | question2/scholartrack-api/crudapi.js:38-48 | POST sends the insert statement and answers 201 or 500 |
| `Service.HandleList` | question2/scholartrack-api/crudapi.js:55-64 | GET of the collection changes nothing and answers 200 or 500 |
| `Service.HandleGet` | question2/scholartrack-api/crudapi.js:71-85 | GET by id changes nothing and answers 200, 404 or 500 |
| `Service.HandlePut` | question2/scholartrack-api/crudapi.js:93-169 | PUT answers 400 exactly when it sends nothing, and then leaves the store unchanged; otherwise it sends the built update |
| `Service.HandleRemove` | question2/scholartrack-api/crudapi.js:176-190 | DELETE sends the delete-by-key statement and answers 200, 404 or 500 |
| `Service.Handle` | question2/scholartrack-api/crudapi.js:38-463 | any route answers one of 200/201/400/404/500, sends at most one statement, and only PUT can answer 400 |
| `Service.Serve` | question2/scholartrack-api/crudapi.js:38-463 | for all fifteen routes: one of 200/201/400/404/500, 201 only for POST, 400 only for PUT and exactly when nothing is sent, at most one statement sent |
| `Service.IssuedQueriesParameterised` | question2/scholartrack-api/crudapi.js:290-294 | every statement any route sends has one `?` per bound value and safe text |
| `Service.ServedQueriesParameterised` | question2/scholartrack-api/crudapi.js:426-430 | the same for the three tables of the application |
| `Service.MissingTableIsServerError` | question2/scholartrack-api/crudapi.js:75-78 | against a store without the table, every route that reaches the store answers 500 and changes nothing |
| `Service.PutWithoutFields` | question2/scholartrack-api/crudapi.js:149-152 | a PUT with no truthy field answers 400, sends nothing and changes nothing |
| `Service.PostStoresRow` | question2/scholartrack-api/crudapi.js:202-212 | POST answers 201 with the next key and stores every field's supplied value (or NULL) under it |
| `Service.GetFindsRow` | question2/scholartrack-api/crudapi.js:371-385 | GET of a stored key answers 200 with that row |
| `Service.CreateThenGet` | question2/scholartrack-api/crudapi.js:338-348 | POST then GET of the returned key gives back what was submitted (NULL for absent fields) |
| `Service.DeleteThenGet` | question2/scholartrack-api/crudapi.js:448-463 | DELETE answers 200 exactly when the key named a row; a GET afterwards answers 404 |
| `Service.PutMissingRow` | question2/scholartrack-api/crudapi.js:300-303 | PUT of a missing key changes nothing and answers 404 when some field is truthy, 400 otherwise; never 200 |
| `Service.MergeOfUpdate` | question2/scholartrack-api/crudapi.js:264-283 | applying a built update rewrites exactly the truthy fields, each to the supplied value |
| `Service.UpdateRowHits` | question2/scholartrack-api/crudapi.js:158 | an update whose id names a stored row matches it and stores the merged row |
| `Service.PutSendsUpdate` | question2/scholartrack-api/crudapi.js:154-169 | a PUT that builds a statement answers from the store's reply to that statement |
| `Service.PutWritesRow` | question2/scholartrack-api/crudapi.js:257-305 | PUT of an existing row with a truthy field answers 200 and stores the merged row |
| `Service.PutExistingRow` | question2/scholartrack-api/crudapi.js:393-441 | that PUT rewrites exactly the truthy fields and leaves other fields, other rows, other tables and the key counter unchanged |
| `Service.PutThenGet` | question2/scholartrack-api/crudapi.js:93-168 | PUT then GET of an existing row returns the new values for truthy fields and the old values for every other field |
| `Service.ListShowsRows` | question2/scholartrack-api/crudapi.js:219-229 | GET of the collection answers 200 with every stored row and nothing else, and changes nothing |
| `Service.InsertedRowsListed` | question2/scholartrack-api/crudapi.js:40-47 | after an insert the table holds one more row, and every earlier row reads back as before |
| `Service.PostThenList` | question2/scholartrack-api/crudapi.js:355-364 | POST then GET of the collection lists the new row beside every earlier row, one row more than before |

## Left out

- The Express application, routing, `body-parser` and `app.listen` are left out. They are framework plumbing. A route is a `Service.Route` value and a body is already parsed.
- The MySQL connection, its credentials and `db.connect` are left out. The store is the abstract `TableStore`, or a driver reply passed in as a parameter (`Handlers`).
- The asynchronous `db.query` callbacks are left out. A query is a synchronous function from store to store and reply.
- `console.error` logging is left out. It has no effect on responses.
- Concurrent requests are left out. Each route is one atomic step on the store.
- The driver's client-side substitution of bound values is left out. mysql2's `query` escapes each bound value into the text it sends to MySQL. An array expands into a list of values. An object expands into `` `key` = value `` pairs, so a truthy object such as `{"first_name": {"last_name": "X"}}` reaches MySQL as ``first_name = `last_name` = 'X'``. `SqlText.RenderIsParameterised` and `Builders.UpdateTextIgnoresValues` cover the `(sql, values)` pair the handler builds. They say nothing about the text MySQL receives.
- Column types and value coercion are left out. `TableStore` stores each bound value exactly as given. MySQL would store booleans as 1/0, return numbers stored in text columns as strings and DATE columns as dates. Arrays and objects would be expanded by the driver. `Service.PostStoresRow`, `Service.CreateThenGet` and `Service.PutThenGet` hold for the abstract store only.
- Store errors other than a missing table, an unknown column or a column/value count mismatch are left out. These include type errors, NOT NULL and foreign keys. `Handlers` covers every failure the driver reports as a 500, whatever its cause.
- `TableStore.KeyOf`: matches only decimal digit strings (and whole non-negative numbers) to keys. MySQL's lax string-to-number coercion is not modelled. In a SELECT, `"12abc"` or `" 12"` would select key 12, but in this model such an id selects no row. MySQL's documented behaviour is that in strict SQL mode an UPDATE or DELETE comparing the INT key with a non-numeric string can be rejected with a truncation error. Then PUT or DELETE of `/students/abc` would answer 500. `Service.DeleteThenGet` and `Service.PutMissingRow` answer 404 for such ids, so they describe the store only when MySQL does not reject the statement.
- `TableStore.UpdateRow`: counts matched rows as affected. This is what mysql2 reports under its default found-rows flag. The model does not cover a connection configured to count changed rows only.
- Numbers are modelled as reals in `JsValues.JsValue`, so `-0` and `0` are both falsy. `NaN` cannot come from a JSON body. `Infinity` can: `JSON.parse` reads an overflowing literal such as `1e400` as `Infinity`, which is truthy. The model has no value for it. Such a field would be selected like any other truthy number, but the model cannot state it.
- The tables' definitions are not part of this model. `TableStore.RowOf`, `Table.nextId` and `Service.Provisioned` assume the key column comes first in a row, the other columns are exactly the schema's fields in schema order, and the AUTO_INCREMENT counter never overflows.
- Primary-key uniqueness is a property of the store's map representation. The handlers rely on it and never check it.
