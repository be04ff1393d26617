/**
 * An abstract MySQL store, enough to give the handlers' statements a meaning:
 * each table has an auto-increment primary key and a fixed list of other
 * columns, and a row is stored as column-to-value.  Only the statement kinds
 * the handlers send are interpreted, and only rows selected by their primary
 * key.
 */
module TableStore {
  import opened Wrappers
  import opened JsValues
  import opened SqlText

  /** A stored row without its primary key. */
  type Record = map<string, JsValue>

  /** `nextId` is the next AUTO_INCREMENT value. */
  datatype Table = Table(primaryKey: string, columns: seq<string>, rows: map<nat, Record>, nextId: nat)

  type Db = map<string, Table>

  /** Every stored key was handed out before, and every row has exactly the
      table's columns. */
  predicate ValidTable(t: Table) {
    && t.nextId > 0
    && (forall id :: id in t.rows ==> 0 < id < t.nextId)
    && (forall id :: id in t.rows ==> (forall c :: c in t.rows[id] ==> c in t.columns) && (forall c :: c in t.columns ==> c in t.rows[id]))
  }

  // ---------------------------------------------------------------- keys

  predicate IsDigits(s: string) {
    forall i :: 0 <= i < |s| ==> '0' <= s[i] <= '9'
  }

  function DigitChar(d: nat): (c: char)
    requires d < 10
    ensures '0' <= c <= '9' && c as int - '0' as int == d
  {
    ('0' as int + d) as char
  }

  /** The decimal spelling of a key, as a client writes it in `/students/:id`. */
  function Decimal(n: nat): (s: string)
    ensures |s| > 0 && IsDigits(s)
  {
    if n < 10 then [DigitChar(n)] else Decimal(n / 10) + [DigitChar(n % 10)]
  }

  function DigitsValue(s: string): (v: Option<nat>)
    ensures v.Some? <==> IsDigits(s)
  {
    if s == [] then Some(0)
    else
      var last := s[|s| - 1];
      var init := DigitsValue(s[..|s| - 1]);
      assert IsDigits(s) <==> IsDigits(s[..|s| - 1]) && '0' <= last <= '9' by {
        assert forall i :: 0 <= i < |s| - 1 ==> s[..|s| - 1][i] == s[i];
      }
      if init.Some? && '0' <= last <= '9' then Some(init.value * 10 + (last as int - '0' as int))
      else None
  }

  /** The key a route id names: a non-empty run of decimal digits.  Leading
      zeros are allowed, as MySQL's comparison of a string with a number
      allows them. */
  function ParseDecimal(s: string): (v: Option<nat>)
    ensures v.Some? <==> |s| > 0 && IsDigits(s)
  {
    if s == [] then None else DigitsValue(s)
  }

  lemma {:induction false} ParseDecimalRoundTrip(n: nat)
    ensures ParseDecimal(Decimal(n)) == Some(n)
  {
    var s := Decimal(n);
    if n < 10 {
      assert s == [DigitChar(n)];
      assert s[..|s| - 1] == [];
      assert DigitsValue([]) == Some(0);
    } else {
      ParseDecimalRoundTrip(n / 10);
      assert s[..|s| - 1] == Decimal(n / 10);
      assert s[|s| - 1] == DigitChar(n % 10);
      assert (n / 10) * 10 + n % 10 == n;
    }
  }

  /** A leading zero does not change the key a digit string spells. */
  lemma {:induction false} DigitsValueLeadingZero(s: string)
    ensures DigitsValue(['0'] + s) == DigitsValue(s)
  {
    if s != [] {
      var z := ['0'] + s;
      assert z[..|z| - 1] == ['0'] + s[..|s| - 1];
      assert z[|z| - 1] == s[|s| - 1];
      DigitsValueLeadingZero(s[..|s| - 1]);
    } else {
      assert (['0'] + s)[..0] == [];
    }
  }

  /** The key a bound id value selects: a decimal string, or a whole
      non-negative number. */
  function KeyOf(v: JsValue): (k: Option<nat>)
    ensures v.Str? ==> k == ParseDecimal(v.s)
  {
    match v
    case Str(s) => ParseDecimal(s)
    case Num(x) => if x >= 0.0 && x.Floor as real == x then Some(x.Floor) else None
    case _ => None
  }

  /** The id a client writes for key `n` selects key `n`, and so does the
      same id written with leading zeros (`"007"` selects 7). */
  lemma KeyOfDecimal(n: nat, zeros: nat)
    ensures KeyOf(Str(Decimal(n))) == Some(n)
    ensures KeyOf(Str(seq(zeros, _ => '0') + Decimal(n))) == Some(n)
  {
    ParseDecimalRoundTrip(n);
    KeyOfZeros(Decimal(n), zeros);
  }

  lemma {:induction false} KeyOfZeros(s: string, zeros: nat)
    requires |s| > 0
    ensures ParseDecimal(seq(zeros, _ => '0') + s) == ParseDecimal(s)
  {
    if zeros > 0 {
      var rest := seq(zeros - 1, _ => '0') + s;
      assert seq(zeros, _ => '0') + s == ['0'] + rest;
      KeyOfZeros(s, zeros - 1);
      DigitsValueLeadingZero(rest);
    } else {
      assert seq(zeros, _ => '0') + s == s;
    }
  }

  // ---------------------------------------------------------------- values

  /** The driver writes `undefined` as SQL NULL. */
  function Stored(v: JsValue): (w: JsValue)
    ensures w != Undefined
    ensures v == Undefined ==> w == Null
    ensures v != Undefined ==> w == v
  {
    if v == Undefined then Null else v
  }

  /** The value bound to column `c` by parallel lists of columns and values. */
  function BoundValue(cols: seq<string>, vals: seq<JsValue>, c: string): JsValue
    requires |cols| == |vals| && c in cols
  {
    Stored(vals[IndexOf(cols, c)])
  }

  /** A fresh row: the bound columns take their values, the others NULL. */
  function NewRecord(columns: seq<string>, cols: seq<string>, vals: seq<JsValue>): (rec: Record)
    requires |cols| == |vals|
    ensures forall c :: c in rec <==> c in columns
    ensures forall c :: c in columns && c in cols ==> rec[c] == BoundValue(cols, vals, c)
    ensures forall c :: c in columns && c !in cols ==> rec[c] == Null
  {
    map c | c in columns :: if c in cols then BoundValue(cols, vals, c) else Null
  }

  /** A row after `SET cols[i] = vals[i]`: the named columns change, the
      others keep their values. */
  function Merge(rec: Record, cols: seq<string>, vals: seq<JsValue>): (r: Record)
    requires |cols| == |vals|
    ensures r.Keys == rec.Keys
    ensures forall c :: c in rec && c in cols ==> r[c] == BoundValue(cols, vals, c)
    ensures forall c :: c in rec && c !in cols ==> r[c] == rec[c]
  {
    map c | c in rec :: if c in cols then BoundValue(cols, vals, c) else rec[c]
  }

  /** A stored row as SELECT * returns it: the key first, then the columns in
      table order. */
  function Project(columns: seq<string>, rec: Record): (row: Row)
    requires forall c :: c in columns ==> c in rec
    ensures |row| == |columns|
    ensures forall i :: 0 <= i < |columns| ==> row[i] == (columns[i], rec[columns[i]])
  {
    if columns == [] then [] else [(columns[0], rec[columns[0]])] + Project(columns[1..], rec)
  }

  function RowOf(t: Table, id: nat): (row: Row)
    requires ValidTable(t) && id in t.rows
    ensures |row| == |t.columns| + 1
    ensures row[0] == (t.primaryKey, Num(id as real))
    ensures forall i :: 0 <= i < |t.columns| ==> row[i + 1] == (t.columns[i], t.rows[id][t.columns[i]])
  {
    [(t.primaryKey, Num(id as real))] + Project(t.columns, t.rows[id])
  }

  /** The rows with keys below `n`, in key order. */
  function RowsBelow(t: Table, n: nat): (rows: seq<Row>)
    requires ValidTable(t)
    ensures |rows| == |set id | id in t.rows && id < n|
  {
    if n == 0 then []
    else
      var below := set id | id in t.rows && id < n - 1;
      assert (set id | id in t.rows && id < n) == below + (if n - 1 in t.rows then {n - 1} else {});
      RowsBelow(t, n - 1) + (if n - 1 in t.rows then [RowOf(t, n - 1)] else [])
  }

  /** The rows below `n` are exactly the stored rows with keys below `n`. */
  lemma {:induction false} RowsBelowContents(t: Table, n: nat)
    requires ValidTable(t)
    ensures forall k :: k in t.rows && k < n ==> RowOf(t, k) in RowsBelow(t, n)
    ensures forall r :: r in RowsBelow(t, n) ==> exists k :: k in t.rows && k < n && r == RowOf(t, k)
  {
    if n > 0 {
      RowsBelowContents(t, n - 1);
      var prev := RowsBelow(t, n - 1);
      var extra: seq<Row> := if n - 1 in t.rows then [RowOf(t, n - 1)] else [];
      assert RowsBelow(t, n) == prev + extra;
      forall k | k in t.rows && k < n ensures RowOf(t, k) in RowsBelow(t, n) {
        if k < n - 1 {
          assert RowOf(t, k) in prev;
        } else {
          assert RowOf(t, k) in extra;
        }
      }
      forall r | r in RowsBelow(t, n) ensures exists k :: k in t.rows && k < n && r == RowOf(t, k) {
        if r in prev {
          var k :| k in t.rows && k < n - 1 && r == RowOf(t, k);
          assert k < n;
        } else {
          assert r in extra;
          assert r == RowOf(t, n - 1);
        }
      }
    }
  }

  // ---------------------------------------------------------------- statements

  predicate KnownColumns(t: Table, cols: seq<string>) {
    forall c :: c in cols ==> c in t.columns
  }

  predicate ValidDb(db: Db) {
    forall name :: name in db ==> ValidTable(db[name])
  }

  /** SELECT * FROM table: every row, in key order. */
  function SelectTable(db: Db, table: string): (r: SelectReply)
    requires ValidDb(db)
    ensures r.SelectFailed? <==> table !in db
    ensures r.Rows? ==> |r.rows| == |db[table].rows|
    ensures r.Rows? ==> forall k :: k in db[table].rows ==> RowOf(db[table], k) in r.rows
    ensures r.Rows? ==> forall row :: row in r.rows ==> exists k :: k in db[table].rows && row == RowOf(db[table], k)
  {
    if table !in db then SelectFailed("no such table")
    else
      var t := db[table];
      assert (set id | id in t.rows && id < t.nextId) == t.rows.Keys;
      RowsBelowContents(t, t.nextId);
      Rows(RowsBelow(t, t.nextId))
  }

  /** SELECT * FROM table WHERE key = id: the row the id names, if any. */
  function SelectRow(db: Db, table: string, key: string, id: JsValue): (r: SelectReply)
    requires ValidDb(db)
    ensures r.SelectFailed? <==> table !in db || key != db[table].primaryKey
    ensures r.Rows? ==> (r.rows == [] <==> KeyOf(id).None? || KeyOf(id).value !in db[table].rows)
    ensures r.Rows? && r.rows != [] ==> r.rows == [RowOf(db[table], KeyOf(id).value)]
  {
    if table !in db then SelectFailed("no such table")
    else
      var t := db[table];
      if key != t.primaryKey then SelectFailed("unknown column")
      else
        var k := KeyOf(id);
        if k.Some? && k.value in t.rows then Rows([RowOf(t, k.value)]) else Rows([])
  }

  /** INSERT INTO table (cols) VALUES (vals): a new row under the next key. */
  function InsertRow(db: Db, table: string, cols: seq<string>, vals: seq<JsValue>): (r: (Db, WriteReply))
    requires ValidDb(db)
    ensures ValidDb(r.0)
    ensures r.1.WriteFailed? <==> table !in db || !KnownColumns(db[table], cols) || |cols| != |vals|
    ensures r.1.WriteFailed? ==> r.0 == db
    ensures r.0.Keys == db.Keys
    ensures forall name :: name in db && name != table ==> r.0[name] == db[name]
    ensures r.1.Written? ==>
              var t := db[table];
              && r.1 == Written(1, t.nextId)
              && r.0[table] == t.(rows := t.rows[t.nextId := NewRecord(t.columns, cols, vals)], nextId := t.nextId + 1)
  {
    if table !in db then (db, WriteFailed("no such table"))
    else
      var t := db[table];
      if !KnownColumns(t, cols) then (db, WriteFailed("unknown column"))
      else if |cols| != |vals| then (db, WriteFailed("column count does not match value count"))
      else
        var t' := t.(rows := t.rows[t.nextId := NewRecord(t.columns, cols, vals)], nextId := t.nextId + 1);
        (db[table := t'], Written(1, t.nextId))
  }

  /** UPDATE table SET cols = vals WHERE key = id: the row the id names, if
      any, takes the new values; the affected count is the number of rows
      matched. */
  function UpdateRow(db: Db, table: string, cols: seq<string>, vals: seq<JsValue>, key: string, id: JsValue): (r: (Db, WriteReply))
    requires ValidDb(db)
    ensures ValidDb(r.0)
    ensures r.1.WriteFailed? <==>
              table !in db || !KnownColumns(db[table], cols) || key != db[table].primaryKey || |cols| != |vals|
    ensures r.1.WriteFailed? || (r.1.Written? && r.1.affectedRows == 0) ==> r.0 == db
    ensures r.0.Keys == db.Keys
    ensures forall name :: name in db && name != table ==> r.0[name] == db[name]
    ensures r.1.Written? ==>
              var t := db[table];
              var k := KeyOf(id);
              && r.1.insertId == 0
              && (r.1.affectedRows == 1 <==> k.Some? && k.value in t.rows)
              && (r.1.affectedRows <= 1)
              && (r.1.affectedRows == 1 ==>
                    r.0[table] == t.(rows := t.rows[k.value := Merge(t.rows[k.value], cols, vals)]))
  {
    if table !in db then (db, WriteFailed("no such table"))
    else
      var t := db[table];
      if !KnownColumns(t, cols) || key != t.primaryKey then (db, WriteFailed("unknown column"))
      else if |cols| != |vals| then (db, WriteFailed("column count does not match value count"))
      else
        var k := KeyOf(id);
        if k.None? || k.value !in t.rows then (db, Written(0, 0))
        else
          var t' := t.(rows := t.rows[k.value := Merge(t.rows[k.value], cols, vals)]);
          (db[table := t'], Written(1, 0))
  }

  /** DELETE FROM table WHERE key = id: the row the id names, if any, is
      gone. */
  function DeleteRow(db: Db, table: string, key: string, id: JsValue): (r: (Db, WriteReply))
    requires ValidDb(db)
    ensures ValidDb(r.0)
    ensures r.1.WriteFailed? <==> table !in db || key != db[table].primaryKey
    ensures r.1.WriteFailed? || (r.1.Written? && r.1.affectedRows == 0) ==> r.0 == db
    ensures r.0.Keys == db.Keys
    ensures forall name :: name in db && name != table ==> r.0[name] == db[name]
    ensures r.1.Written? ==>
              var t := db[table];
              var k := KeyOf(id);
              && r.1.insertId == 0
              && (r.1.affectedRows == 1 <==> k.Some? && k.value in t.rows)
              && (r.1.affectedRows <= 1)
              && (r.1.affectedRows == 1 ==> r.0[table] == t.(rows := t.rows - {k.value}))
  {
    if table !in db then (db, WriteFailed("no such table"))
    else
      var t := db[table];
      if key != t.primaryKey then (db, WriteFailed("unknown column"))
      else
        var k := KeyOf(id);
        if k.None? || k.value !in t.rows then (db, Written(0, 0))
        else
          var t' := t.(rows := t.rows - {k.value});
          (db[table := t'], Written(1, 0))
  }

  /** A SELECT statement against the store. */
  function Select(db: Db, st: Statement): (r: SelectReply)
    requires ValidDb(db)
    requires st.SelectAll? || st.SelectByKey?
    ensures st.table !in db ==> r.SelectFailed?
  {
    match st
    case SelectAll(table) => SelectTable(db, table)
    case SelectByKey(table, key, id) => SelectRow(db, table, key, id)
  }

  /** An INSERT, UPDATE or DELETE statement against the store. */
  function Write(db: Db, st: Statement): (r: (Db, WriteReply))
    requires ValidDb(db)
    requires st.Insert? || st.Update? || st.Delete?
    ensures ValidDb(r.0)
    ensures r.1.WriteFailed? ==> r.0 == db
    ensures st.table !in db ==> r.1.WriteFailed?
  {
    match st
    case Insert(table, cols, vals) => InsertRow(db, table, cols, vals)
    case Update(table, cols, vals, key, id) => UpdateRow(db, table, cols, vals, key, id)
    case Delete(table, key, id) => DeleteRow(db, table, key, id)
  }
}
