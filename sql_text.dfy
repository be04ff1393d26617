/**
 * Parameterised SQL statements: their structure, the text and bound values
 * they are sent to the store as, and what that text can contain.
 */
module SqlText {
  import opened JsValues

  /** `Array.prototype.join`: the elements with `sep` between neighbours;
      the empty array joins to "". */
  function Join(xs: seq<string>, sep: string): (r: string)
    ensures xs == [] ==> r == ""
    ensures |xs| > 0 ==> xs[0] <= r
    ensures |xs| > 0 ==> |xs[|xs| - 1]| <= |r| && r[|r| - |xs[|xs| - 1]|..] == xs[|xs| - 1]
    ensures |xs| > 1 ==> xs[0] + sep <= r
  {
    if |xs| == 0 then ""
    else if |xs| == 1 then xs[0]
    else xs[0] + sep + Join(xs[1..], sep)
  }

  /** Number of occurrences of `c` in `s`. */
  function Count(c: char, s: string): nat {
    if s == [] then 0 else (if s[0] == c then 1 else 0) + Count(c, s[1..])
  }

  lemma {:induction false} CountAppend(c: char, s: string, t: string)
    ensures Count(c, s + t) == Count(c, s) + Count(c, t)
  {
    if s == [] {
      assert s + t == t;
    } else {
      assert (s + t)[1..] == s[1..] + t;
      CountAppend(c, s[1..], t);
    }
  }

  lemma {:induction false} CountAbsent(c: char, s: string)
    requires c !in s
    ensures Count(c, s) == 0
  {
    if s != [] {
      assert c !in s[1..];
      CountAbsent(c, s[1..]);
    }
  }

  /** A column or table name as the handlers write them: non-empty, lower-case
      letters and underscores only. */
  predicate IsIdentifier(name: string) {
    |name| > 0 && forall i :: 0 <= i < |name| ==> ('a' <= name[i] <= 'z' || name[i] == '_')
  }

  /** The characters that statement text is made of: keyword letters, names,
      spaces and SQL punctuation. No quote, backslash, semicolon or digit can
      occur, so no string or number literal can be spelled out in the text. */
  predicate SafeChar(c: char) {
    || 'a' <= c <= 'z' || 'A' <= c <= 'Z'
    || c == '_' || c == ' ' || c == ',' || c == '=' || c == '?' || c == '*' || c == '(' || c == ')'
  }

  predicate SafeText(s: string) {
    forall c :: c in s ==> SafeChar(c)
  }

  /** A statement as the handlers build it. `Update` carries the assignments
      `columns[i] = values[i]` and the row predicate `key = id`. */
  datatype Statement =
    | Insert(table: string, columns: seq<string>, values: seq<JsValue>)
    | SelectAll(table: string)
    | SelectByKey(table: string, key: string, id: JsValue)
    | Update(table: string, columns: seq<string>, values: seq<JsValue>, key: string, id: JsValue)
    | Delete(table: string, key: string, id: JsValue)

  /** What `db.query(sql, values, ...)` is called with. */
  datatype Query = Query(sql: string, params: seq<JsValue>)

  /** A result row as the driver hands it over: column name to value, in
      column order. */
  type Row = seq<(string, JsValue)>

  /** The driver's answer to a SELECT: an error, or the matching rows. */
  datatype SelectReply = SelectFailed(detail: string) | Rows(rows: seq<Row>)

  /** The driver's answer to an INSERT, UPDATE or DELETE: an error, or the
      result header with the number of rows matched and the generated key. */
  datatype WriteReply = WriteFailed(detail: string) | Written(affectedRows: nat, insertId: nat)

  /** `name = ?`, one update clause. */
  function Assignment(name: string): string {
    name + " = ?"
  }

  function Assignments(names: seq<string>): (r: seq<string>)
    ensures |r| == |names|
    ensures forall i :: 0 <= i < |names| ==> r[i] == Assignment(names[i])
  {
    if names == [] then [] else [Assignment(names[0])] + Assignments(names[1..])
  }

  /** `n` placeholders, for the VALUES list of an insert. */
  function Placeholders(n: nat): (r: seq<string>)
    ensures |r| == n && forall i :: 0 <= i < n ==> r[i] == "?"
  {
    if n == 0 then [] else Placeholders(n - 1) + ["?"]
  }

  /** The statement text with `?` placeholders, and the bound values in
      placeholder order. */
  function Render(st: Statement): (q: Query)
    ensures st.Insert? ==> q.params == st.values
    ensures st.SelectAll? ==> q.params == []
    ensures st.SelectByKey? || st.Delete? ==> q.params == [st.id]
    ensures st.Update? ==> q.params == st.values + [st.id]
  {
    match st
    case Insert(t, cols, vals) =>
      Query("INSERT INTO " + t + " (" + Join(cols, ", ") + ") VALUES ("
            + Join(Placeholders(|cols|), ", ") + ")", vals)
    case SelectAll(t) =>
      Query("SELECT * FROM " + t, [])
    case SelectByKey(t, key, id) =>
      Query("SELECT * FROM " + t + " WHERE " + key + " = ?", [id])
    case Update(t, cols, vals, key, id) =>
      Query("UPDATE " + t + " SET " + Join(Assignments(cols), ", ") + " WHERE " + key + " = ?",
            vals + [id])
    case Delete(t, key, id) =>
      Query("DELETE FROM " + t + " WHERE " + key + " = ?", [id])
  }

  /** Names are identifiers, and inserts and updates supply one value per
      column. */
  predicate WellFormed(st: Statement) {
    && IsIdentifier(st.table)
    && (st.Insert? || st.Update? ==> |st.columns| == |st.values| && forall c :: c in st.columns ==> IsIdentifier(c))
    && (!st.Insert? && !st.SelectAll? ==> IsIdentifier(st.key))
  }

  lemma IdentifierHasNoPlaceholder(name: string)
    requires IsIdentifier(name)
    ensures Count('?', name) == 0
    ensures SafeText(name)
  {
    assert '?' !in name;
    CountAbsent('?', name);
  }

  /** Placeholders in a list of fragments. */
  function CountIn(c: char, xs: seq<string>): nat {
    if xs == [] then 0 else Count(c, xs[0]) + CountIn(c, xs[1..])
  }

  /** Joining with ", " adds no placeholder. */
  lemma {:induction false} JoinCount(xs: seq<string>)
    ensures Count('?', Join(xs, ", ")) == CountIn('?', xs)
  {
    if |xs| == 1 {
      assert Join(xs, ", ") == xs[0];
    } else if |xs| > 1 {
      JoinCount(xs[1..]);
      FragmentSeparator();
      CountAppend('?', xs[0], ", ");
      CountAppend('?', xs[0] + ", ", Join(xs[1..], ", "));
    }
  }

  lemma {:induction false} CountInUniform(xs: seq<string>, k: nat)
    requires k <= 1
    requires forall i :: 0 <= i < |xs| ==> Count('?', xs[i]) == k
    ensures CountIn('?', xs) == if k == 0 then 0 else |xs|
  {
    if xs != [] {
      CountInUniform(xs[1..], k);
    }
  }

  /** Joining safe fragments with ", " gives safe text. */
  lemma {:induction false} JoinSafe(xs: seq<string>)
    requires forall i :: 0 <= i < |xs| ==> SafeText(xs[i])
    ensures SafeText(Join(xs, ", "))
  {
    if |xs| > 1 {
      JoinSafe(xs[1..]);
    }
  }

  /** `k` placeholders per fragment, `k` being 0 or 1. */
  lemma JoinFacts(xs: seq<string>, k: nat)
    requires k <= 1
    requires forall i :: 0 <= i < |xs| ==> Count('?', xs[i]) == k && SafeText(xs[i])
    ensures Count('?', Join(xs, ", ")) == if k == 0 then 0 else |xs|
    ensures SafeText(Join(xs, ", "))
  {
    JoinCount(xs);
    CountInUniform(xs, k);
    JoinSafe(xs);
  }

  /** A fixed fragment of statement text: safe, and without placeholder.
      Each fragment the statements use gets its own small lemma below, so
      that no proof has to reason about several literals at once. */
  lemma Fixed(w: string)
    requires SafeText(w) && '?' !in w
    ensures Count('?', w) == 0
  {
    CountAbsent('?', w);
  }

  lemma FragmentInsertInto() ensures SafeText("INSERT INTO ") && Count('?', "INSERT INTO ") == 0 { Fixed("INSERT INTO "); }
  lemma FragmentOpenColumns() ensures SafeText(" (") && Count('?', " (") == 0 { Fixed(" ("); }
  lemma FragmentOpenValues() ensures SafeText(") VALUES (") && Count('?', ") VALUES (") == 0 { Fixed(") VALUES ("); }
  lemma FragmentCloseValues() ensures SafeText(")") && Count('?', ")") == 0 { Fixed(")"); }
  lemma FragmentSelectFrom() ensures SafeText("SELECT * FROM ") && Count('?', "SELECT * FROM ") == 0 { Fixed("SELECT * FROM "); }
  lemma FragmentWhere() ensures SafeText(" WHERE ") && Count('?', " WHERE ") == 0 { Fixed(" WHERE "); }
  lemma FragmentUpdateSet() ensures SafeText("UPDATE ") && Count('?', "UPDATE ") == 0 { Fixed("UPDATE "); }
  lemma FragmentSet() ensures SafeText(" SET ") && Count('?', " SET ") == 0 { Fixed(" SET "); }
  lemma FragmentDeleteFrom() ensures SafeText("DELETE FROM ") && Count('?', "DELETE FROM ") == 0 { Fixed("DELETE FROM "); }
  lemma FragmentSeparator() ensures SafeText(", ") && Count('?', ", ") == 0 { Fixed(", "); }

  lemma FragmentPlaceholder()
    ensures SafeText(" = ?") && Count('?', " = ?") == 1
  {
    assert " = ?" == " = " + "?";
    Fixed(" = ");
    CountAppend('?', " = ", "?");
  }

  lemma {:induction false} Parts5(a: string, b: string, c: string, d: string, e: string)
    requires SafeText(a) && SafeText(b) && SafeText(c) && SafeText(d) && SafeText(e)
    ensures Count('?', a + b + c + d + e) == Count('?', a) + Count('?', b) + Count('?', c) + Count('?', d) + Count('?', e)
    ensures SafeText(a + b + c + d + e)
  {
    CountAppend('?', a, b);
    CountAppend('?', a + b, c);
    CountAppend('?', a + b + c, d);
    CountAppend('?', a + b + c + d, e);
  }

  lemma {:induction false} Parts7(a: string, b: string, c: string, d: string, e: string, f: string, g: string)
    requires SafeText(a) && SafeText(b) && SafeText(c) && SafeText(d) && SafeText(e) && SafeText(f) && SafeText(g)
    ensures Count('?', a + b + c + d + e + f + g) ==
            Count('?', a) + Count('?', b) + Count('?', c) + Count('?', d) + Count('?', e) + Count('?', f) + Count('?', g)
    ensures SafeText(a + b + c + d + e + f + g)
  {
    Parts5(a, b, c, d, e);
    CountAppend('?', a + b + c + d + e, f);
    CountAppend('?', a + b + c + d + e + f, g);
  }

  /** The text of a well-formed statement has exactly one placeholder per
      bound value, and is made of safe characters only: every supplied value
      travels as a parameter, never as text. */
  lemma RenderIsParameterised(st: Statement)
    requires WellFormed(st)
    ensures Count('?', Render(st).sql) == |Render(st).params|
    ensures SafeText(Render(st).sql)
  {
    match st
    case Insert(t, cols, vals) => InsertText(t, cols, vals);
    case SelectAll(t) => SelectAllText(t);
    case SelectByKey(t, key, id) => SelectByKeyText(t, key, id);
    case Update(t, cols, vals, key, id) => UpdateText(t, cols, vals, key, id);
    case Delete(t, key, id) => DeleteText(t, key, id);
  }

  /** The text of a statement depends only on its table and column names,
      never on the values it binds or the id it selects. */
  lemma RenderTextIgnoresValues(t: string, cols: seq<string>, key: string,
                                v1: seq<JsValue>, v2: seq<JsValue>, id1: JsValue, id2: JsValue)
    ensures Render(Insert(t, cols, v1)).sql == Render(Insert(t, cols, v2)).sql
    ensures Render(SelectByKey(t, key, id1)).sql == Render(SelectByKey(t, key, id2)).sql
    ensures Render(Update(t, cols, v1, key, id1)).sql == Render(Update(t, cols, v2, key, id2)).sql
    ensures Render(Delete(t, key, id1)).sql == Render(Delete(t, key, id2)).sql
  {
  }

  lemma SelectAllText(t: string)
    requires IsIdentifier(t)
    ensures Count('?', Render(SelectAll(t)).sql) == 0
    ensures SafeText(Render(SelectAll(t)).sql)
  {
    IdentifierHasNoPlaceholder(t);
    FragmentSelectFrom();
    CountAppend('?', "SELECT * FROM ", t);
  }

  lemma SelectByKeyText(t: string, key: string, id: JsValue)
    requires IsIdentifier(t) && IsIdentifier(key)
    ensures Count('?', Render(SelectByKey(t, key, id)).sql) == 1
    ensures SafeText(Render(SelectByKey(t, key, id)).sql)
  {
    IdentifierHasNoPlaceholder(t);
    IdentifierHasNoPlaceholder(key);
    FragmentSelectFrom();
    FragmentWhere();
    FragmentPlaceholder();
    Parts5("SELECT * FROM ", t, " WHERE ", key, " = ?");
  }

  lemma DeleteText(t: string, key: string, id: JsValue)
    requires IsIdentifier(t) && IsIdentifier(key)
    ensures Count('?', Render(Delete(t, key, id)).sql) == 1
    ensures SafeText(Render(Delete(t, key, id)).sql)
  {
    IdentifierHasNoPlaceholder(t);
    IdentifierHasNoPlaceholder(key);
    FragmentDeleteFrom();
    FragmentWhere();
    FragmentPlaceholder();
    Parts5("DELETE FROM ", t, " WHERE ", key, " = ?");
  }

  lemma InsertText(t: string, cols: seq<string>, vals: seq<JsValue>)
    requires IsIdentifier(t)
    requires forall c :: c in cols ==> IsIdentifier(c)
    ensures Count('?', Render(Insert(t, cols, vals)).sql) == |cols|
    ensures SafeText(Render(Insert(t, cols, vals)).sql)
  {
    IdentifierHasNoPlaceholder(t);
    forall i | 0 <= i < |cols| ensures Count('?', cols[i]) == 0 && SafeText(cols[i]) {
      assert cols[i] in cols;
      IdentifierHasNoPlaceholder(cols[i]);
    }
    JoinFacts(cols, 0);
    var ph := Placeholders(|cols|);
    FragmentPlaceholderAlone();
    JoinFacts(ph, 1);
    FragmentInsertInto();
    FragmentOpenColumns();
    FragmentOpenValues();
    FragmentCloseValues();
    Parts7("INSERT INTO ", t, " (", Join(cols, ", "), ") VALUES (", Join(ph, ", "), ")");
  }

  lemma FragmentPlaceholderAlone()
    ensures SafeText("?") && Count('?', "?") == 1
  {
  }

  lemma UpdateText(t: string, cols: seq<string>, vals: seq<JsValue>, key: string, id: JsValue)
    requires IsIdentifier(t) && IsIdentifier(key)
    requires forall c :: c in cols ==> IsIdentifier(c)
    ensures Count('?', Render(Update(t, cols, vals, key, id)).sql) == |cols| + 1
    ensures SafeText(Render(Update(t, cols, vals, key, id)).sql)
  {
    IdentifierHasNoPlaceholder(t);
    IdentifierHasNoPlaceholder(key);
    var asg := Assignments(cols);
    FragmentPlaceholder();
    forall i | 0 <= i < |asg| ensures Count('?', asg[i]) == 1 && SafeText(asg[i]) {
      assert cols[i] in cols;
      IdentifierHasNoPlaceholder(cols[i]);
      CountAppend('?', cols[i], " = ?");
    }
    JoinFacts(asg, 1);
    FragmentUpdateSet();
    FragmentSet();
    FragmentWhere();
    Parts7("UPDATE ", t, " SET ", Join(asg, ", "), " WHERE ", key, " = ?");
  }
}
