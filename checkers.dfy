/** The result checker of the test add-ons: an object holding an expected
    and a returned value, with comparators that overwrite those two fields
    while they walk through lists and dicts, and a checking step that resets
    them when a comparison does not succeed. */
module Checkers {
  import opened Wrappers
  import opened Values

  /** The comparisons `check` can poll: the private `__equal`,
      `__different`, `__find_in_string` and `__find_in_list`, or a callback
      supplied by the caller, given by the value it answers. */
  datatype Callback = Equal | Different | FindInString | FindInList | Custom(answer: Dyn<bool>)

  /** What `check` does when no poll succeeded: `reset()`, or the
      `returned.clear` that `find` passes for lists. */
  datatype ResetAction = ResetFields | ClearReturned

  /** The fields of a checker: `expected`, `returned` and `timeout`
      (`None` is `Null` for the values, and `None` for the timeout). */
  datatype CheckerState = CheckerState(expected: Json, returned: Json, timeout: Option<real>)

  predicate TruthyTimeout(t: Option<real>)
  {
    t.Some? && t.value != 0.0
  }

  /** `if not self.timeout: self.timeout = 1.0` */
  function FixTimeout(t: Option<real>): (r: Option<real>)
    ensures TruthyTimeout(r)
    ensures TruthyTimeout(t) ==> r == t
    ensures !TruthyTimeout(t) ==> r == Some(1.0)
  {
    if TruthyTimeout(t) then t else Some(1.0)
  }

  /** Python's `sub in s` on texts. */
  function Occurs(sub: string, s: string): bool
    decreases |s|
  {
    if |sub| > |s| then false
    else if s[..|sub|] == sub then true
    else s != [] && Occurs(sub, s[1..])
  }

  /** `sub in s` holds exactly when `sub` is found at some position of `s`. */
  lemma {:induction false} OccursAt(sub: string, s: string)
    ensures Occurs(sub, s) <==> exists i :: 0 <= i <= |s| - |sub| && s[i..][..|sub|] == sub
    decreases |s|
  {
    if |sub| <= |s| && s[..|sub|] != sub && s != [] {
      OccursAt(sub, s[1..]);
      if Occurs(sub, s) {
        var i :| 0 <= i <= |s[1..]| - |sub| && s[1..][i..][..|sub|] == sub;
        assert s[i + 1..] == s[1..][i..];
      }
      if exists i :: 0 <= i <= |s| - |sub| && s[i..][..|sub|] == sub {
        var i :| 0 <= i <= |s| - |sub| && s[i..][..|sub|] == sub;
        assert i != 0;
        assert s[1..][i - 1..] == s[i..];
      }
    } else if |sub| <= |s| && s[..|sub|] == sub {
      assert s[0..][..|sub|] == sub;
    }
  }

  /** `__find_in_list`: true at the first line holding `expected`; a line
      that is not a text has no `find` (AttributeError), and `find` of a
      non-text is a TypeError. */
  function FindInLines(lines: seq<Json>, e: Json): (r: Result<bool, Exc>)
    ensures r.Err? ==> r.error == AttributeError || r.error == TypeError
    ensures r == Ok(true) ==> e.Str? && exists k :: 0 <= k < |lines| && lines[k].Str? && Occurs(e.s, lines[k].s)
    decreases |lines|
  {
    if lines == [] then Ok(false)
    else if !lines[0].Str? then Err(AttributeError)
    else if !e.Str? then Err(TypeError)
    else if Occurs(e.s, lines[0].s) then Ok(true)
    else FindInLines(lines[1..], e)
  }

  /** Over a list of texts, `__find_in_list` answers whether some line holds
      the text, and never fails. */
  lemma {:induction false} FindInLinesSpec(lines: seq<Json>, e: string)
    requires forall j :: 0 <= j < |lines| ==> lines[j].Str?
    ensures FindInLines(lines, Str(e)) == Ok(exists j :: 0 <= j < |lines| && Occurs(e, lines[j].s))
    decreases |lines|
  {
    if lines != [] {
      FindInLinesSpec(lines[1..], e);
      assert forall j :: 1 <= j < |lines| ==> lines[j] == lines[1..][j - 1];
    }
  }

  /** The loop of `__find_in_list`. */
  method ScanLines(lines: seq<Json>, e: Json) returns (r: Result<bool, Exc>)
    ensures r == FindInLines(lines, e)
  {
    var j := 0;
    while j < |lines|
      invariant 0 <= j <= |lines|
      invariant FindInLines(lines[j..], e) == FindInLines(lines, e)
    {
      assert lines[j..][1..] == lines[j + 1..];
      if !lines[j].Str? {
        return Err(AttributeError);
      }
      if !e.Str? {
        return Err(TypeError);
      }
      if Occurs(e.s, lines[j].s) {
        return Ok(true);
      }
      j := j + 1;
    }
    return Ok(false);
  }

  /** One call of the polled callback on the current fields. */
  function Evaluate(cb: Callback, expected: Json, returned: Json): Result<Dyn<bool>, Exc>
  {
    match cb
    case Equal => Ok(Is(PyEq(expected, returned)))
    case Different => Ok(Is(!PyEq(expected, returned)))
    case FindInString =>
      if expected.Str? && returned.Str? then Ok(Is(Occurs(expected.s, returned.s))) else Err(TypeError)
    case FindInList =>
      if !returned.Arr? then Err(KaliTypeError)
      else (match FindInLines(returned.items, expected)
        case Ok(b) => Ok(Is(b))
        case Err(e) => Err(e))
    case Custom(a) => Ok(a)
  }

  function AfterReset(s: CheckerState, reset: ResetAction): CheckerState
  {
    match reset
    case ResetFields => s.(expected := Null, returned := Null)
    case ClearReturned => s.(returned := Arr([]))
  }

  /** What `check` answers and the fields it leaves. `polled` says whether
      the deadline let the callback run at all; the model's callbacks depend
      only on the two fields, which the polling loop does not change, so one
      call answers for all of them. */
  function CheckStep(s: CheckerState, cb: Callback, reset: ResetAction, polled: bool)
    : (r: (Result<Option<bool>, Exc>, CheckerState))
    ensures TruthyTimeout(r.1.timeout)
    ensures r.0.Err? || r.0 == Ok(Some(true)) ==> r.1.expected == s.expected && r.1.returned == s.returned
    ensures r.0.Ok? && r.0 != Ok(Some(true)) ==> r.1 == AfterReset(s.(timeout := FixTimeout(s.timeout)), reset)
    ensures r.0.Ok? ==> !s.expected.Null? && !s.returned.Null?
  {
    var fixed := s.(timeout := FixTimeout(s.timeout));
    if s.expected.Null? || s.returned.Null? then (Err(KaliValueError), fixed)
    else if !polled then (Ok(None), AfterReset(fixed, reset))
    else match Evaluate(cb, s.expected, s.returned)
      case Err(e) => (Err(e), fixed)
      case Ok(Other) => (Err(KaliValueError), fixed)
      case Ok(Is(b)) => if b then (Ok(Some(true)), fixed) else (Ok(Some(false)), AfterReset(fixed, reset))
  }

  /** `equal` and `different` give opposite answers whenever both fields are
      set and the callback was polled. */
  lemma EqualDifferent(s: CheckerState)
    requires !s.expected.Null? && !s.returned.Null?
    ensures CheckStep(s, Equal, ResetFields, true).0 == Ok(Some(PyEq(s.expected, s.returned)))
    ensures CheckStep(s, Different, ResetFields, true).0 == Ok(Some(!PyEq(s.expected, s.returned)))
  {
  }

  /** The loop of `list_compare` from index `i` on, in state `s`. */
  function ListScan(es: seq<Json>, rs: seq<Json>, i: nat, s: CheckerState, polled: bool)
    : (Result<bool, Exc>, CheckerState)
    requires |es| == |rs| && i <= |es|
    decreases |es| - i
  {
    if i == |es| then (Ok(true), s)
    else if es[i].Null? then ListScan(es, rs, i + 1, s, polled)
    else
      var (d, t) := CheckStep(s.(returned := rs[i], expected := es[i]), Different, ResetFields, polled);
      if d.Err? then (Err(d.error), t)
      else if d.value == Some(true) then (Ok(false), t)
      else ListScan(es, rs, i + 1, t, polled)
  }

  /** What `list_compare` answers and the fields it leaves. */
  function ListStep(s: CheckerState, polled: bool): (r: (Result<bool, Exc>, CheckerState))
    ensures !(s.returned.Arr? && s.expected.Arr?) ==> r == (Err(KaliTypeError), s)
    ensures s.returned.Arr? && s.expected.Arr? && |s.returned.items| != |s.expected.items| ==> r == (Ok(false), s)
  {
    if !(s.returned.Arr? && s.expected.Arr?) then (Err(KaliTypeError), s)
    else if |s.returned.items| != |s.expected.items| then (Ok(false), s)
    else ListScan(s.expected.items, s.returned.items, 0, s, polled)
  }

  /** With the callback polled, the scan succeeds exactly when every item
      expected (`None` matching anything) equals the returned one. */
  lemma {:induction false} ListScanMatches(es: seq<Json>, rs: seq<Json>, i: nat, s: CheckerState)
    requires |es| == |rs| && i <= |es|
    ensures ListScan(es, rs, i, s, true).0 == Ok(true)
            <==> forall j :: i <= j < |es| && !es[j].Null? ==> !rs[j].Null? && PyEq(es[j], rs[j])
    decreases |es| - i
  {
    if i < |es| {
      if es[i].Null? {
        ListScanMatches(es, rs, i + 1, s);
      } else {
        var (d, t) := CheckStep(s.(returned := rs[i], expected := es[i]), Different, ResetFields, true);
        if d.Ok? && d.value != Some(true) {
          ListScanMatches(es, rs, i + 1, t);
        }
      }
    }
  }

  /** `list_compare` with the callback polled: true exactly for two lists of
      the same length whose non-`None` expected items equal the returned
      ones. */
  lemma ListCompareMatches(s: CheckerState)
    requires s.expected.Arr? && s.returned.Arr?
    ensures ListStep(s, true).0 == Ok(true)
            <==> && |s.expected.items| == |s.returned.items|
                 && forall j :: 0 <= j < |s.expected.items| && !s.expected.items[j].Null?
                      ==> !s.returned.items[j].Null? && PyEq(s.expected.items[j], s.returned.items[j])
  {
    if |s.expected.items| == |s.returned.items| {
      ListScanMatches(s.expected.items, s.returned.items, 0, s);
    }
  }

  /** When the deadline leaves no time for a single poll, `different` answers
      `None`, which `list_compare` takes as a match: lists of the same length
      then compare equal whatever their items, as long as no returned item
      under a non-`None` expected one is `None`. */
  lemma {:induction false} ListScanUnpolled(es: seq<Json>, rs: seq<Json>, i: nat, s: CheckerState)
    requires |es| == |rs| && i <= |es|
    requires forall j :: i <= j < |es| && !es[j].Null? ==> !rs[j].Null?
    ensures ListScan(es, rs, i, s, false).0 == Ok(true)
    decreases |es| - i
  {
    if i < |es| {
      var t := if es[i].Null? then s
        else CheckStep(s.(returned := rs[i], expected := es[i]), Different, ResetFields, false).1;
      ListScanUnpolled(es, rs, i + 1, t);
    }
  }

  /** `dict_compare`: both values must be dicts; a size or key-set mismatch
      is false; then the expected keys are visited in order. */
  function DictStep(s: CheckerState, polled: bool): (r: (Result<bool, Exc>, CheckerState))
    ensures !(s.returned.Obj? && s.expected.Obj?) ==> r == (Err(KaliTypeError), s)
    ensures (s.returned.Obj? && s.expected.Obj? &&
             multiset(Keys(s.returned.entries)) != multiset(Keys(s.expected.entries))) ==> r == (Ok(false), s)
    decreases s.expected, 1, 0
  {
    if !(s.returned.Obj? && s.expected.Obj?) then (Err(KaliTypeError), s)
    else if |s.returned.entries| != |s.expected.entries| then (Ok(false), s)
    else if multiset(Keys(s.returned.entries)) != multiset(Keys(s.expected.entries)) then (Ok(false), s)
    else DictScan(s.expected.entries, s.returned.entries, 0, s, polled)
  }

  /** The key loop of `dict_compare` from entry `i` on: `None` is skipped,
      the first dict or list returned decides the whole answer, any other
      value must equal the expected one. */
  function DictScan(es: seq<(string, Json)>, rs: seq<(string, Json)>, i: nat, s: CheckerState, polled: bool)
    : (Result<bool, Exc>, CheckerState)
    requires i <= |es|
    decreases Obj(es), 0, |es| - i
  {
    if i == |es| then (Ok(true), s)
    else if es[i].1.Null? then DictScan(es, rs, i + 1, s, polled)
    else match Get(rs, es[i].0)
      case None => (Err(KeyError), s)
      case Some(v) =>
        if v.Obj? || v.Arr? then
          assert es[i] in es;
          var nested := s.(returned := v, expected := es[i].1);
          if v.Obj? then DictStep(nested, polled) else ListStep(nested, polled)
        else if !PyEq(es[i].1, v) then (Ok(false), s)
        else DictScan(es, rs, i + 1, s, polled)
  }

  /** No returned value is itself a dict or a list. */
  predicate Flat(rs: seq<(string, Json)>)
  {
    forall k :: 0 <= k < |rs| ==> !rs[k].1.Obj? && !rs[k].1.Arr?
  }

  /** Over a returned dict without nested containers, the key loop succeeds
      exactly when every non-`None` expected value is found under its key
      and equals the returned one. */
  lemma {:induction false} DictScanFlat(es: seq<(string, Json)>, rs: seq<(string, Json)>, i: nat, s: CheckerState, polled: bool)
    requires i <= |es| && Flat(rs)
    ensures DictScan(es, rs, i, s, polled).1 == s
    ensures DictScan(es, rs, i, s, polled).0 == Ok(true)
            <==> forall j :: i <= j < |es| && !es[j].1.Null? ==> Matches(es[j], rs)
    decreases |es| - i
  {
    if i < |es| {
      DictScanFlat(es, rs, i + 1, s, polled);
      var g := Get(rs, es[i].0);
      if !es[i].1.Null? && g.Some? {
        var k :| 0 <= k < |rs| && rs[k] == (es[i].0, g.value);
        assert !g.value.Obj? && !g.value.Arr?;
      }
    }
  }

  /** A non-`None` expected entry is found under its key in the returned
      dict, with an equal value. */
  predicate Matches(entry: (string, Json), rs: seq<(string, Json)>)
  {
    Get(rs, entry.0).Some? && PyEq(entry.1, Get(rs, entry.0).value)
  }

  /** `dict_compare` on flat dicts: true exactly for dicts of the same size
      and keys whose non-`None` expected values equal the returned ones. */
  lemma DictCompareFlat(s: CheckerState, polled: bool)
    requires s.expected.Obj? && s.returned.Obj? && Flat(s.returned.entries)
    ensures DictStep(s, polled).0 == Ok(true)
            <==> && |s.returned.entries| == |s.expected.entries|
                 && multiset(Keys(s.returned.entries)) == multiset(Keys(s.expected.entries))
                 && forall j :: 0 <= j < |s.expected.entries| && !s.expected.entries[j].1.Null? ==>
                      Matches(s.expected.entries[j], s.returned.entries)
  {
    var es, rs := s.expected.entries, s.returned.entries;
    if |rs| == |es| && multiset(Keys(rs)) == multiset(Keys(es)) {
      DictScanFlat(es, rs, 0, s, polled);
      assert DictStep(s, polled) == DictScan(es, rs, 0, s, polled);
    }
  }

  /** Once the loop reaches a non-`None` key whose returned value is a dict
      or a list, the keys after it play no part in the answer. */
  lemma NestedDecides(es: seq<(string, Json)>, tail: seq<(string, Json)>, rs: seq<(string, Json)>,
                      i: nat, s: CheckerState, polled: bool)
    requires i < |es| && !es[i].1.Null?
    requires Get(rs, es[i].0).Some? && (Get(rs, es[i].0).value.Obj? || Get(rs, es[i].0).value.Arr?)
    ensures DictScan(es[..i + 1] + tail, rs, i, s, polled) == DictScan(es[..i + 1], rs, i, s, polled)
  {
    assert (es[..i + 1] + tail)[i] == es[..i + 1][i] == es[i];
  }

  /** The values of a dict, in order. */
  function EntryValues(es: seq<(string, Json)>): (r: seq<Json>)
    ensures |r| == |es| && forall k :: 0 <= k < |es| ==> r[k] == es[k].1
  {
    if es == [] then [] else [es[0].1] + EntryValues(es[1..])
  }

  /** `e in container`: substring of a text, an equal item of a list, a key
      of a dict (a list or dict cannot be a key: TypeError); anything else is
      not a container (TypeError). */
  function Contains(container: Json, e: Json): Result<bool, Exc>
  {
    match container
    case Str(t) => if e.Str? then Ok(Occurs(e.s, t)) else Err(TypeError)
    case Arr(xs) => Ok(exists j :: 0 <= j < |xs| && PyEq(xs[j], e))
    case Obj(es) => if e.Arr? || e.Obj? then Err(TypeError) else Ok(e.Str? && e.s in Keys(es))
    case _ => Err(TypeError)
  }

  /** The loop of `find` over a dict's values: true at the first value that
      contains `expected`. */
  function FindInValues(values: seq<Json>, e: Json): (r: Result<bool, Exc>)
    decreases |values|
  {
    if values == [] then Ok(false)
    else match Contains(values[0], e)
      case Err(x) => Err(x)
      case Ok(b) => if b then Ok(true) else FindInValues(values[1..], e)
  }

  /** When every value is a container of the right kind, the dict search is
      true exactly when some value contains `expected`. */
  lemma {:induction false} FindInValuesSpec(values: seq<Json>, e: Json)
    requires forall j :: 0 <= j < |values| ==> Contains(values[j], e).Ok?
    ensures FindInValues(values, e) == Ok(exists j :: 0 <= j < |values| && Contains(values[j], e).value)
    decreases |values|
  {
    if values != [] {
      FindInValuesSpec(values[1..], e);
      assert forall j :: 1 <= j < |values| ==> values[j] == values[1..][j - 1];
    }
  }

  /** What `find` answers and the fields it leaves: a dict is searched
      directly, a list or a text through `check`.  A list search that does
      not succeed empties the returned list; a success keeps it. */
  function FindStep(s: CheckerState, polled: bool): (r: (Result<Option<bool>, Exc>, CheckerState))
    ensures !(s.returned.Obj? || s.returned.Arr? || s.returned.Str?) ==> r == (Err(KaliTypeError), s)
    ensures s.returned.Obj? ==> r.1 == s
    ensures s.returned.Arr? && r.0.Ok? && r.0 != Ok(Some(true)) ==> r.1.returned == Arr([]) && r.1.expected == s.expected
    ensures r.0 == Ok(Some(true)) ==> r.1.returned == s.returned
  {
    match s.returned
    case Obj(es) =>
      (match FindInValues(EntryValues(es), s.expected)
       case Err(x) => Err(x)
       case Ok(b) => Ok(Some(b)), s)
    case Arr(_) => CheckStep(s, FindInList, ClearReturned, polled)
    case Str(_) => CheckStep(s, FindInString, ResetFields, polled)
    case _ => (Err(KaliTypeError), s)
  }

  class Checker {
    var expected: Json
    var returned: Json
    var timeout: Option<real>

    function State(): CheckerState
      reads this
    {
      CheckerState(expected, returned, timeout)
    }

    constructor ()
      ensures State() == CheckerState(Null, Null, None)
    {
      expected := Null;
      returned := Null;
      timeout := None;
    }

    method SetTimeout(t: Option<real>)
      modifies this
      ensures State() == old(State()).(timeout := t)
    {
      timeout := t;
    }

    method SetExpected(v: Json)
      modifies this
      ensures State() == old(State()).(expected := v)
    {
      expected := v;
    }

    method SetReturned(v: Json)
      modifies this
      ensures State() == old(State()).(returned := v)
    {
      returned := v;
    }

    /** `reset` */
    method Reset()
      modifies this
      ensures State() == AfterReset(old(State()), ResetFields)
    {
      expected := Null;
      returned := Null;
    }

    /** `check` */
    method Check(cb: Callback, reset: ResetAction, polled: bool) returns (r: Result<Option<bool>, Exc>)
      modifies this
      ensures r == CheckStep(old(State()), cb, reset, polled).0
      ensures State() == CheckStep(old(State()), cb, reset, polled).1
    {
      if !TruthyTimeout(timeout) {
        timeout := Some(1.0);
      }
      if expected.Null? || returned.Null? {
        return Err(KaliValueError);
      }
      var answer: Option<bool> := None;
      if polled {
        var a: Result<Dyn<bool>, Exc>;
        if cb.FindInList? && returned.Arr? {
          var found := ScanLines(returned.items, expected);
          a := if found.Ok? then Ok(Is(found.value)) else Err(found.error);
        } else {
          a := Evaluate(cb, expected, returned);
        }
        if a.Err? {
          return Err(a.error);
        }
        if a.value.Other? {
          return Err(KaliValueError);
        }
        answer := Some(a.value.v);
        if a.value.v {
          return Ok(answer);
        }
      }
      match reset {
        case ResetFields => Reset();
        case ClearReturned => returned := Arr([]);
      }
      return Ok(answer);
    }

    /** `equal` */
    method Equal(polled: bool) returns (r: Result<Option<bool>, Exc>)
      modifies this
      ensures r == CheckStep(old(State()), Callback.Equal, ResetFields, polled).0
      ensures State() == CheckStep(old(State()), Callback.Equal, ResetFields, polled).1
    {
      r := Check(Callback.Equal, ResetFields, polled);
    }

    /** `different` */
    method Different(polled: bool) returns (r: Result<Option<bool>, Exc>)
      modifies this
      ensures r == CheckStep(old(State()), Callback.Different, ResetFields, polled).0
      ensures State() == CheckStep(old(State()), Callback.Different, ResetFields, polled).1
    {
      r := Check(Callback.Different, ResetFields, polled);
    }

    /** `list_compare` */
    method ListCompare(polled: bool) returns (r: Result<bool, Exc>)
      modifies this
      ensures r == ListStep(old(State()), polled).0
      ensures State() == ListStep(old(State()), polled).1
    {
      if !(returned.Arr? && expected.Arr?) {
        return Err(KaliTypeError);
      }
      if |returned.items| != |expected.items| {
        return Ok(false);
      }
      var exp := expected.items;
      var ret := returned.items;
      var i := 0;
      while i < |ret|
        invariant 0 <= i <= |ret| && |exp| == |ret|
        invariant ListScan(exp, ret, i, State(), polled) == ListStep(old(State()), polled)
      {
        if !exp[i].Null? {
          returned := ret[i];
          expected := exp[i];
          var d := Different(polled);
          if d.Err? {
            return Err(d.error);
          }
          if d.value == Some(true) {
            return Ok(false);
          }
        }
        i := i + 1;
      }
      return Ok(true);
    }

    /** `dict_compare` */
    method DictCompare(polled: bool) returns (r: Result<bool, Exc>)
      modifies this
      ensures r == DictStep(old(State()), polled).0
      ensures State() == DictStep(old(State()), polled).1
      decreases expected, 1
    {
      if !(returned.Obj? && expected.Obj?) {
        return Err(KaliTypeError);
      }
      if |returned.entries| != |expected.entries| {
        return Ok(false);
      }
      if multiset(Keys(returned.entries)) != multiset(Keys(expected.entries)) {
        return Ok(false);
      }
      r := ScanKeys(expected.entries, returned.entries, polled);
    }

    /** The key loop of `dict_compare`. */
    method ScanKeys(exp: seq<(string, Json)>, ret: seq<(string, Json)>, polled: bool) returns (r: Result<bool, Exc>)
      modifies this
      ensures r == DictScan(exp, ret, 0, old(State()), polled).0
      ensures State() == DictScan(exp, ret, 0, old(State()), polled).1
      decreases Obj(exp), 0
    {
      ghost var s0 := State();
      var i := 0;
      while i < |exp|
        invariant 0 <= i <= |exp|
        invariant State() == s0
        invariant DictScan(exp, ret, i, s0, polled) == DictScan(exp, ret, 0, s0, polled)
      {
        var (k, ev) := exp[i];
        if !ev.Null? {
          var rv := Get(ret, k);
          if rv.None? {
            return Err(KeyError);
          }
          if rv.value.Obj? || rv.value.Arr? {
            assert exp[i] in exp;
            r := CompareNested(ev, rv.value, polled);
            return;
          }
          if !PyEq(ev, rv.value) {
            return Ok(false);
          }
        }
        i := i + 1;
      }
      return Ok(true);
    }

    /** A dict or list found under a key decides the whole comparison. */
    method CompareNested(ev: Json, rv: Json, polled: bool) returns (r: Result<bool, Exc>)
      requires rv.Obj? || rv.Arr?
      modifies this
      ensures var nested := old(State()).(returned := rv, expected := ev);
              r == (if rv.Obj? then DictStep(nested, polled) else ListStep(nested, polled)).0
      ensures var nested := old(State()).(returned := rv, expected := ev);
              State() == (if rv.Obj? then DictStep(nested, polled) else ListStep(nested, polled)).1
      decreases ev, 2
    {
      returned := rv;
      expected := ev;
      if rv.Obj? {
        r := DictCompare(polled);
      } else {
        r := ListCompare(polled);
      }
    }

    /** `find` */
    method Find(polled: bool) returns (r: Result<Option<bool>, Exc>)
      modifies this
      ensures r == FindStep(old(State()), polled).0
      ensures State() == FindStep(old(State()), polled).1
    {
      if returned.Obj? {
        var values := EntryValues(returned.entries);
        var j := 0;
        while j < |values|
          invariant 0 <= j <= |values|
          invariant FindInValues(values[j..], expected) == FindInValues(values, expected)
        {
          assert values[j..][1..] == values[j + 1..];
          var c := Contains(values[j], expected);
          if c.Err? {
            return Err(c.error);
          }
          if c.value {
            return Ok(Some(true));
          }
          j := j + 1;
        }
        return Ok(Some(false));
      }
      if returned.Arr? {
        r := Check(FindInList, ClearReturned, polled);
      } else if returned.Str? {
        r := Check(FindInString, ResetFields, polled);
      } else {
        r := Err(KaliTypeError);
      }
    }
  }
}
