/**
 * JavaScript values as they reach the request handlers after JSON body
 * parsing, and the truthiness test that the `if (field)` checks apply.
 */
module JsValues {

  /** A JavaScript value. Numbers are reals: `-0` and `0` coincide, and both
      are falsy. NaN is not representable (JSON cannot produce it). */
  datatype JsValue =
    | Undefined
    | Null
    | Bool(b: bool)
    | Num(n: real)
    | Str(s: string)
    | Arr(items: seq<JsValue>)
    | Obj(entries: seq<(string, JsValue)>)

  /** JavaScript's ToBoolean: `undefined`, `null`, `false`, `0` and `""`
      are falsy; every other value, including `[]` and `{}`, is truthy. */
  predicate Truthy(v: JsValue)
    ensures !Truthy(v) <==> v == Undefined || v == Null || v == Bool(false) || v == Num(0.0) || v == Str("")
  {
    match v
    case Undefined => false
    case Null => false
    case Bool(b) => b
    case Num(n) => n != 0.0
    case Str(s) => s != ""
    case Arr(_) => true
    case Obj(_) => true
  }

  /** A request body as its JSON text lists it: (key, value) pairs in
      order. A key may be repeated in the text; `JSON.parse` keeps the last
      value given for it. */
  type Body = seq<(string, JsValue)>

  /** What `const { name } = body` binds: the value of the last pair called
      `name`, or `undefined` when the body has none. */
  function Lookup(body: Body, name: string): (v: JsValue)
    ensures (forall i :: 0 <= i < |body| ==> body[i].0 != name) ==> v == Undefined
    ensures |body| > 0 && body[|body| - 1].0 == name ==> v == body[|body| - 1].1
  {
    if body == [] then Undefined
    else if body[|body| - 1].0 == name then body[|body| - 1].1
    else
      var init := body[..|body| - 1];
      assert forall i :: 0 <= i < |init| ==> init[i] == body[i];
      Lookup(init, name)
  }

  /** A repeated key binds the value of its last pair, whatever pairs of
      other names follow it. */
  lemma {:induction false} LookupLastWins(body: Body, name: string, i: nat)
    requires i < |body| && body[i].0 == name
    requires forall j :: i < j < |body| ==> body[j].0 != name
    ensures Lookup(body, name) == body[i].1
    decreases |body|
  {
    if i < |body| - 1 {
      var init := body[..|body| - 1];
      assert forall j :: i < j < |init| ==> init[j] == body[j];
      LookupLastWins(init, name, i);
    }
  }

  /** An object has at most one property of each name. */
  predicate DistinctKeys(body: Body) {
    forall i, j :: 0 <= i < j < |body| ==> body[i].0 != body[j].0
  }

  /** In an object, the value bound to a name is the one paired with it. */
  lemma {:induction false} LookupPair(body: Body, name: string, v: JsValue)
    requires DistinctKeys(body)
    requires (name, v) in body
    ensures Lookup(body, name) == v
  {
    var n := |body| - 1;
    if body[n] != (name, v) {
      var init := body[..n];
      assert body == init + [body[n]];
      assert (name, v) in init;
      assert DistinctKeys(init) by {
        forall i, j | 0 <= i < j < |init|
          ensures init[i].0 != init[j].0
        {
          assert init[i] == body[i] && init[j] == body[j];
        }
      }
      var k := IndexOf(init, (name, v));
      assert body[k] == (name, v);
      assert body[n].0 != name;
      LookupPair(init, name, v);
    }
  }

  /** The order in which an object's properties arrive does not change what
      destructuring binds. */
  lemma LookupIgnoresOrder(b1: Body, b2: Body, name: string)
    requires DistinctKeys(b1) && DistinctKeys(b2)
    requires multiset(b1) == multiset(b2)
    ensures Lookup(b1, name) == Lookup(b2, name)
  {
    if i :| 0 <= i < |b1| && b1[i].0 == name {
      var v := b1[i].1;
      assert (name, v) in multiset(b1);
      assert (name, v) in b2;
      LookupPair(b1, name, v);
      LookupPair(b2, name, v);
    } else {
      forall j | 0 <= j < |b2| ensures b2[j].0 != name {
        assert b2[j] in multiset(b1);
      }
    }
  }

  /** Position of an element known to be in a sequence. */
  function IndexOf<T(==)>(s: seq<T>, x: T): (i: nat)
    requires x in s
    ensures i < |s| && s[i] == x
  {
    if s[0] == x then 0 else 1 + IndexOf(s[1..], x)
  }
}
