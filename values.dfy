/** JSON documents, which are also the Python values the comparators handle:
    `None`, booleans, integers, text, lists and insertion-ordered dicts with
    text keys.  The Python operations on them that the modelled code uses are
    spelled out here: truth value, `==`, `d[key]`, `in` and iteration. */
module Values {
  import opened Wrappers

  datatype Json =
    | Null
    | Bool(b: bool)
    | Num(n: int)
    | Str(s: string)
    | Arr(items: seq<Json>)
    | Obj(entries: seq<(string, Json)>)

  /** Python truth value: `None`, `False`, `0` and empty containers are false. */
  predicate Truthy(j: Json)
  {
    match j
    case Null => false
    case Bool(b) => b
    case Num(n) => n != 0
    case Str(s) => s != ""
    case Arr(xs) => xs != []
    case Obj(es) => es != []
  }

  function Keys(es: seq<(string, Json)>): (r: seq<string>)
    ensures |r| == |es| && forall k :: 0 <= k < |es| ==> r[k] == es[k].0
  {
    if es == [] then [] else [es[0].0] + Keys(es[1..])
  }

  /** A dict's entries have distinct keys. */
  predicate DistinctKeys(es: seq<(string, Json)>)
  {
    forall i, j :: 0 <= i < j < |es| ==> es[i].0 != es[j].0
  }

  /** The value stored under `key`, if any. */
  function Get(es: seq<(string, Json)>, key: string): (r: Option<Json>)
    ensures r.None? <==> key !in Keys(es)
    ensures r.Some? ==> exists k :: 0 <= k < |es| && es[k] == (key, r.value)
  {
    if es == [] then None
    else if es[0].0 == key then Some(es[0].1)
    else Get(es[1..], key)
  }

  /** `x[key]` with a text key: KeyError on a dict without the key, TypeError
      on a value that is not a dict. */
  function Index(j: Json, key: string): (r: Result<Json, Exc>)
    ensures r.Err? ==> r.error == (if j.Obj? then KeyError else TypeError)
    ensures r.Ok? <==> j.Obj? && key in Keys(j.entries)
  {
    if !j.Obj? then Err(TypeError)
    else match Get(j.entries, key)
      case Some(v) => Ok(v)
      case None => Err(KeyError)
  }

  /** `for x in j`: a list gives its items, a dict its keys, a text its
      characters; anything else is not iterable (TypeError). */
  function Iter(j: Json): (r: Result<seq<Json>, Exc>)
    ensures r.Ok? <==> j.Arr? || j.Obj? || j.Str?
    ensures j.Arr? ==> r == Ok(j.items)
    ensures r.Ok? && j.Obj? ==> |r.value| == |j.entries|
  {
    match j
    case Arr(xs) => Ok(xs)
    case Obj(es) => Ok(seq(|es|, k requires 0 <= k < |es| => Str(es[k].0)))
    case Str(s) => Ok(seq(|s|, k requires 0 <= k < |s| => Str([s[k]])))
    case _ => Err(TypeError)
  }

  /** Python `==`: `True == 1`, lists compare item by item and dicts as maps,
      whatever the order of their entries. */
  predicate PyEq(a: Json, b: Json)
    decreases a
  {
    match a
    case Null => b.Null?
    case Bool(x) => (b.Bool? && b.b == x) || (b.Num? && b.n == (if x then 1 else 0))
    case Num(x) => (b.Num? && b.n == x) || (b.Bool? && x == (if b.b then 1 else 0))
    case Str(x) => b.Str? && b.s == x
    case Arr(xs) =>
      b.Arr? && |xs| == |b.items| && forall i :: 0 <= i < |xs| ==> PyEq(xs[i], b.items[i])
    case Obj(es) =>
      && b.Obj? && |es| == |b.entries|
      && forall i :: 0 <= i < |es| ==>
           Get(b.entries, es[i].0).Some? && PyEq(es[i].1, Get(b.entries, es[i].0).value)
  }

  /** Python `==` agrees with identity on every value. */
  lemma {:induction false} PyEqRefl(a: Json)
    requires WfJson(a)
    ensures PyEq(a, a)
    decreases a
  {
    match a
    case Arr(xs) =>
      forall i | 0 <= i < |xs| ensures PyEq(xs[i], xs[i]) {
        PyEqRefl(xs[i]);
      }
    case Obj(es) =>
      forall i | 0 <= i < |es|
        ensures Get(es, es[i].0).Some? && PyEq(es[i].1, Get(es, es[i].0).value)
      {
        GetDistinct(es, i);
        PyEqRefl(es[i].1);
      }
    case _ =>
  }

  /** In a dict with distinct keys, looking up an entry's key finds its value. */
  lemma {:induction false} GetDistinct(es: seq<(string, Json)>, i: nat)
    requires DistinctKeys(es) && i < |es|
    ensures Get(es, es[i].0) == Some(es[i].1)
  {
    if i > 0 {
      assert es[0].0 != es[i].0;
      GetDistinct(es[1..], i - 1);
    }
  }

  /** Every dict inside the value has distinct keys, as Python dicts do. */
  predicate WfJson(j: Json)
    decreases j
  {
    match j
    case Arr(xs) => forall i :: 0 <= i < |xs| ==> WfJson(xs[i])
    case Obj(es) => DistinctKeys(es) && forall i :: 0 <= i < |es| ==> WfJson(es[i].1)
    case _ => true
  }

  /** `isinstance(x, list) and all(isinstance(t, str) for t in x)`: the texts
      held by a list of texts, and nothing for any other value. */
  function StrItems(j: Json): (r: Option<seq<string>>)
    ensures r.Some? <==> j.Arr? && forall i :: 0 <= i < |j.items| ==> j.items[i].Str?
    ensures r.Some? ==> |r.value| == |j.items| && forall i :: 0 <= i < |j.items| ==> j.items[i] == Str(r.value[i])
  {
    if !j.Arr? then None
    else if forall i :: 0 <= i < |j.items| ==> j.items[i].Str? then
      Some(seq(|j.items|, i requires 0 <= i < |j.items| => j.items[i].s))
    else None
  }

  /** The list holding the given texts. */
  function Texts(ss: seq<string>): (r: Json)
    ensures r.Arr? && |r.items| == |ss|
  {
    Arr(seq(|ss|, i requires 0 <= i < |ss| => Str(ss[i])))
  }

  /** A list of texts is read back as its texts. */
  lemma StrItemsTexts(ss: seq<string>)
    ensures StrItems(Texts(ss)) == Some(ss)
  {
    var r := StrItems(Texts(ss));
    assert r.Some?;
    assert r.value == ss;
  }
}
