/** The test runner (services/lib/kali/kali.py, class `Kali`): tag filters,
    the life cycle of test cases, the addon registry and the results table. */
module Kali {
  import opened Wrappers
  import opened Values
  import opened Text
  import opened TestResult

  /** A test case is registered under `(number, title)`. */
  type CaseKey = (string, string)

  /** An addon as the registry sees it: its attribute dictionary. */
  datatype Addon = Addon(attrs: map<string, Json>)

  // ---------------------------------------------------------------------------
  // Tag filters

  /** `check_refused_tags`: no refused tags are set, or the test carries none
      of them. */
  predicate RefusedOk(refused: Option<seq<string>>, tags: seq<string>)
  {
    refused.None? || refused.value == [] || forall i :: 0 <= i < |tags| ==> tags[i] !in refused.value
  }

  /** `check_accepted_tags`: no accepted tags are set, or the test carries
      every one of them. */
  predicate AcceptedOk(accepted: Option<seq<string>>, tags: seq<string>)
  {
    accepted.None? || accepted.value == [] || forall i :: 0 <= i < |accepted.value| ==> accepted.value[i] in tags
  }

  function Elems(s: seq<string>): set<string>
  {
    set x | x in s
  }

  /** Both filters only look at the sets of tags: a refused set must be
      disjoint from the test's tags, an accepted set included in them. */
  lemma FiltersAreSetTests(accepted: Option<seq<string>>, refused: Option<seq<string>>, tags: seq<string>)
    ensures RefusedOk(refused, tags) <==> refused.None? || refused.value == [] || Elems(refused.value) !! Elems(tags)
    ensures AcceptedOk(accepted, tags) <==> accepted.None? || accepted.value == [] || Elems(accepted.value) <= Elems(tags)
  {
    if refused.Some? && refused.value != [] && !RefusedOk(refused, tags) {
      var i :| 0 <= i < |tags| && tags[i] in refused.value;
      assert tags[i] in Elems(refused.value) * Elems(tags);
    }
    if accepted.Some? && accepted.value != [] {
      if AcceptedOk(accepted, tags) {
        forall x | x in Elems(accepted.value) ensures x in Elems(tags) {
          var i :| 0 <= i < |accepted.value| && accepted.value[i] == x;
        }
      } else {
        var i :| 0 <= i < |accepted.value| && accepted.value[i] !in tags;
        assert accepted.value[i] in Elems(accepted.value) - Elems(tags);
      }
    }
  }

  /** More tags on a test can only lose the refused check and only win the
      accepted check; a test without tags passes the refused check, and the
      accepted check only when no accepted tag is set. */
  lemma FiltersMonotone(accepted: Option<seq<string>>, refused: Option<seq<string>>, tags: seq<string>, more: seq<string>)
    ensures AcceptedOk(accepted, tags) ==> AcceptedOk(accepted, tags + more)
    ensures RefusedOk(refused, tags + more) ==> RefusedOk(refused, tags)
    ensures RefusedOk(refused, [])
    ensures AcceptedOk(accepted, []) <==> accepted.None? || accepted.value == []
  {
    if RefusedOk(refused, tags + more) && refused.Some? && refused.value != [] {
      forall i | 0 <= i < |tags| ensures tags[i] !in refused.value {
        assert (tags + more)[i] == tags[i];
      }
    }
    if accepted.Some? && accepted.value != [] {
      assert accepted.value[0] !in [];
    }
  }

  // ---------------------------------------------------------------------------
  // The results table

  /** Python `c * n`: empty for `n <= 0`. */
  function Repeat(c: char, n: int): (r: string)
    ensures |r| == if n > 0 then n else 0
    ensures forall i :: 0 <= i < |r| ==> r[i] == c
    decreases n
  {
    if n <= 0 then [] else [c] + Repeat(c, n - 1)
  }

  function Digit(d: nat): char
    requires d < 10
  {
    ['0', '1', '2', '3', '4', '5', '6', '7', '8', '9'][d]
  }

  /** `str(n)` for a natural number. */
  function DecimalString(n: nat): (r: string)
    ensures |r| >= 1 && forall i :: 0 <= i < |r| ==> IsDigit(r[i])
  {
    if n < 10 then [Digit(n)] else DecimalString(n / 10) + [Digit(n % 10)]
  }

  /** `int(str(n)) == n`, with the digit reading of `int()`. */
  lemma {:induction false} DecimalStringValue(n: nat)
    ensures DecimalValue(DecimalString(n)) == n
  {
    var s := DecimalString(n);
    var d := Digit(n % 10);
    assert d as int - '0' as int == n % 10;
    if n >= 10 {
      DecimalStringValue(n / 10);
      assert s[..|s| - 1] == DecimalString(n / 10);
    } else {
      assert s[..|s| - 1] == [];
    }
  }

  /** A row of the table: a case key and whether it passed. */
  type Row = (CaseKey, bool)

  /** `lmax_num`: at least 3 and at least the length of every number. */
  function NumWidth(rows: seq<Row>): (r: nat)
    decreases |rows|
  {
    if rows == [] then 3
    else
      var w := NumWidth(rows[..|rows| - 1]);
      var l := |rows[|rows| - 1].0.0|;
      if l > w then l else w
  }

  lemma {:induction false} NumWidthBounds(rows: seq<Row>)
    ensures NumWidth(rows) >= 3 && forall i :: 0 <= i < |rows| ==> |rows[i].0.0| <= NumWidth(rows)
    ensures NumWidth(rows) == 3 || exists i :: 0 <= i < |rows| && |rows[i].0.0| == NumWidth(rows)
    decreases |rows|
  {
    if rows != [] {
      var init := rows[..|rows| - 1];
      NumWidthBounds(init);
      assert forall i :: 0 <= i < |init| ==> init[i] == rows[i];
    }
  }

  /** `lmax_name`: at least 5 and at least the length of every title. */
  function NameWidth(rows: seq<Row>): (r: nat)
    decreases |rows|
  {
    if rows == [] then 5
    else
      var w := NameWidth(rows[..|rows| - 1]);
      var l := |rows[|rows| - 1].0.1|;
      if l > w then l else w
  }

  lemma {:induction false} NameWidthBounds(rows: seq<Row>)
    ensures NameWidth(rows) >= 5 && forall i :: 0 <= i < |rows| ==> |rows[i].0.1| <= NameWidth(rows)
    ensures NameWidth(rows) == 5 || exists i :: 0 <= i < |rows| && |rows[i].0.1| == NameWidth(rows)
    decreases |rows|
  {
    if rows != [] {
      var init := rows[..|rows| - 1];
      NameWidthBounds(init);
      assert forall i :: 0 <= i < |init| ==> init[i] == rows[i];
    }
  }

  const Padding := "  "

  function SepLine(nw: nat, tw: nat): string
  {
    "+" + Repeat('-', nw + 4) + "+" + Repeat('-', tw + 4) + "+" + Repeat('-', |"result"| + 4) + "+"
  }

  /** The title cell is padded as if it held `name` (four letters) although
      it holds `TITLE` (five). */
  function HeaderLine(nw: nat, tw: nat): string
  {
    "|" + Padding + "NUM" + Repeat(' ', 2 + (nw - |"num"|)) + "|"
    + Padding + "TITLE" + Repeat(' ', 2 + (tw - |"name"|)) + "|"
    + Padding + "RESULT" + Padding + "|"
  }

  function RowLine(nw: nat, tw: nat, row: Row): string
  {
    "|" + Padding + row.0.0 + Repeat(' ', 2 + (nw - |row.0.0|)) + "|"
    + Padding + row.0.1 + Repeat(' ', 2 + (tw - |row.0.1|)) + "|"
    + Padding + (if row.1 then "passed" else "failed") + Padding + "|"
  }

  function TotalLine(nw: nat, count: nat): string
  {
    "|" + Padding + "total" + Repeat(' ', 2 + (nw - 5)) + "|" + Padding + DecimalString(count)
  }

  /** A row and the separator line under it. */
  function RowBlock(nw: nat, tw: nat, row: Row): string
  {
    RowLine(nw, tw, row) + "\n" + SepLine(nw, tw) + "\n"
  }

  /** Each row followed by a separator line. */
  function RowsText(nw: nat, tw: nat, rows: seq<Row>): string
    decreases |rows|
  {
    if rows == [] then ""
    else RowsText(nw, tw, rows[..|rows| - 1]) + RowBlock(nw, tw, rows[|rows| - 1])
  }

  /** What `prettyprint_test_cases_result` builds for the given rows. */
  function Table(rows: seq<Row>): string
  {
    var nw := NumWidth(rows);
    var tw := NameWidth(rows);
    Heading(nw, tw) + RowsText(nw, tw, rows) + TotalLine(nw, |rows|)
  }

  /** The separator, header and separator lines that open the table. */
  function Heading(nw: nat, tw: nat): string
  {
    SepLine(nw, tw) + "\n" + HeaderLine(nw, tw) + "\n" + SepLine(nw, tw) + "\n"
  }

  /** Every data row is exactly as long as the separator line, while the
      header row is one character longer. */
  lemma TableWidths(rows: seq<Row>)
    ensures forall i :: 0 <= i < |rows| ==> |RowLine(NumWidth(rows), NameWidth(rows), rows[i])| == |SepLine(NumWidth(rows), NameWidth(rows))|
    ensures |HeaderLine(NumWidth(rows), NameWidth(rows))| == |SepLine(NumWidth(rows), NameWidth(rows))| + 1
  {
    var nw, tw := NumWidth(rows), NameWidth(rows);
    NumWidthBounds(rows);
    NameWidthBounds(rows);
    forall i | 0 <= i < |rows| ensures |RowLine(nw, tw, rows[i])| == |SepLine(nw, tw)| {
      RowWidth(nw, tw, rows[i]);
    }
    assert |SepLine(nw, tw)| == nw + tw + 22;
  }

  lemma RowWidth(nw: nat, tw: nat, row: Row)
    requires |row.0.0| <= nw && |row.0.1| <= tw
    ensures |RowLine(nw, tw, row)| == nw + tw + 22 == |SepLine(nw, tw)|
  {
  }

  /** The rows of the table: each registered case and whether its result is
      true. */
  function RowsOf(cases: seq<(CaseKey, ResultManager)>): (r: seq<Row>)
    reads set i | 0 <= i < |cases| :: cases[i].1
    ensures |r| == |cases|
    ensures forall i :: 0 <= i < |cases| ==> r[i] == (cases[i].0, cases[i].1.result == Some(true))
    decreases |cases|
  {
    if cases == [] then []
    else
      var init := cases[..|cases| - 1];
      assert forall i :: 0 <= i < |init| ==> init[i] == cases[i];
      RowsOf(init) + [(cases[|cases| - 1].0, cases[|cases| - 1].1.result == Some(true))]
  }

  class Kali {
    var addons: map<string, Addon>
    /** `test_cases`, an OrderedDict: the keys in registration order, each
        with its result manager. */
    var cases: seq<(CaseKey, ResultManager)>
    /** `_cur_test_case` */
    var cur: ResultManager?
    var accepted: Option<seq<string>>
    var refused: Option<seq<string>>

    function Managers(): set<ResultManager>
      reads this
    {
      set i | 0 <= i < |cases| :: cases[i].1
    }

    function Registry(): (seq<(CaseKey, ResultManager)>, ResultManager?)
      reads this
    {
      (cases, cur)
    }

    function Filters(): (Option<seq<string>>, Option<seq<string>>)
      reads this
    {
      (accepted, refused)
    }

    /** Keys are registered once, each with its own manager, every manager
        is well formed, the current case is the last one registered and is
        open, and every other case is closed. */
    ghost predicate Valid()
      reads this, Managers()
    {
      && (forall i, j :: 0 <= i < j < |cases| ==> cases[i].0 != cases[j].0 && cases[i].1 != cases[j].1)
      && (forall i :: 0 <= i < |cases| ==> Wf(cases[i].1.State()))
      && (cur != null ==> |cases| > 0 && cases[|cases| - 1].1 == cur && !cur.closed)
      && (forall i :: 0 <= i < |cases| && cases[i].1 != cur ==> cases[i].1.closed)
    }

    /** `(number, title) in self.test_cases` */
    predicate Registered(key: CaseKey)
      reads this
    {
      exists i :: 0 <= i < |cases| && cases[i].0 == key
    }

    constructor ()
      ensures addons == map[] && cases == [] && cur == null && accepted == None && refused == None
      ensures Valid()
    {
      addons, cases, cur, accepted, refused := map[], [], null, None, None;
    }

    /** The `accepted_tags` setter: anything but a list of texts is ignored. */
    method SetAcceptedTags(tags: Json)
      modifies this
      ensures accepted == (if StrItems(tags).Some? then StrItems(tags) else old(accepted))
      ensures refused == old(refused) && addons == old(addons) && Registry() == old(Registry())
    {
      var items := StrItems(tags);
      if items.Some? {
        accepted := items;
      }
    }

    /** The `refused_tags` setter: anything but a list of texts is ignored. */
    method SetRefusedTags(tags: Json)
      modifies this
      ensures refused == (if StrItems(tags).Some? then StrItems(tags) else old(refused))
      ensures accepted == old(accepted) && addons == old(addons) && Registry() == old(Registry())
    {
      var items := StrItems(tags);
      if items.Some? {
        refused := items;
      }
    }

    /** `check_refused_tags(test_case)`: no refused tag is on the case. */
    predicate CheckRefusedTags(tags: seq<string>): (r: bool)
      reads this
      ensures r <==> refused.None? || refused.value == [] || Elems(refused.value) !! Elems(tags)
    {
      FiltersAreSetTests(accepted, refused, tags);
      RefusedOk(refused, tags)
    }

    /** `check_accepted_tags(test_case)`: every accepted tag is on the case. */
    predicate CheckAcceptedTags(tags: seq<string>): (r: bool)
      reads this
      ensures r <==> accepted.None? || accepted.value == [] || Elems(accepted.value) <= Elems(tags)
    {
      FiltersAreSetTests(accepted, refused, tags);
      AcceptedOk(accepted, tags)
    }

    /** `start_test_case(number, title)`: refused while the current case is
        open or when the key is taken; otherwise a fresh manager is
        registered and becomes current.  A current case that is closed
        makes the call do nothing (`Valid` rules that state out). */
    method StartTestCase(number: string, title: string) returns (err: Option<Exc>)
      modifies this
      ensures old(Valid()) ==> Valid()
      ensures addons == old(addons) && Filters() == old(Filters())
      ensures old(cur) != null ==>
        Registry() == old(Registry()) && err == (if old(cur.closed) then None else Some(KaliTestCaseError))
      ensures old(cur) == null && old(Registered((number, title))) ==>
        Registry() == old(Registry()) && err == Some(KaliTestCaseError)
      ensures old(cur) == null && !old(Registered((number, title))) ==>
        && err == None && cur != null && fresh(cur) && cur.State() == FreshManager
        && cases == old(cases) + [((number, title), cur)]
    {
      if cur != null {
        if !cur.closed {
          return Some(KaliTestCaseError);
        }
        return None;
      } else if Registered((number, title)) {
        return Some(KaliTestCaseError);
      }
      var m := new ResultManager();
      cases := cases + [((number, title), m)];
      cur := m;
      return None;
    }

    /** `end_test_case()`: refused without a current case or when it is
        closed; otherwise the current case is closed and forgotten.  A case
        without steps cannot be closed: the error of `close` comes through
        and the case stays current. */
    method EndTestCase() returns (err: Option<Exc>)
      modifies this, cur
      ensures old(Valid()) ==> Valid()
      ensures addons == old(addons) && Filters() == old(Filters()) && cases == old(cases)
      ensures old(cur) == null ==> cur == null && err == Some(KaliTestCaseError)
      ensures old(cur) != null && old(cur.closed) ==>
        cur == old(cur) && cur.State() == old(cur.State()) && err == Some(KaliTestCaseError)
      ensures old(cur) != null && !old(cur.closed) ==>
        match CloseStep(old(cur.State()))
        case Err(e) => err == Some(e) && cur == old(cur) && cur.State() == old(cur.State())
        case Ok(m) => err == None && cur == null && old(cur).State() == m
      ensures err == None ==> TestCaseResult().Err?
    {
      if cur == null {
        return Some(KaliTestCaseError);
      } else if cur.IsClosed() {
        return Some(KaliTestCaseError);
      }
      err := cur.Close();
      if err.None? {
        cur := null;
      }
    }

    /** `test_case_result()`: the result of the current case once it is
        closed.  `end_test_case` forgets the current case, so right after it
        this is always an error. */
    function TestCaseResult(): (r: Result<Option<bool>, Exc>)
      reads this, cur
      ensures r.Err? <==> cur == null || !cur.closed
      ensures r.Err? ==> r.error == KaliTestCaseError
      ensures r.Ok? ==> r.value == cur.result
    {
      if cur == null then Err(KaliTestCaseError)
      else if !cur.closed then Err(KaliTestCaseError)
      else Ok(cur.result)
    }

    /** `get_result(key, operation)`: the addon's answer (a parameter here),
        recorded as a passed or failed step of the current case when there is
        an open one. */
    method GetResult(key: string, answer: Json) returns (r: Result<Json, Exc>)
      modifies cur
      ensures old(Valid()) ==> Valid()
      ensures r == if key in addons then Ok(answer) else Err(KaliKeyError)
      ensures cur != null ==>
        cur.State() == if key in addons && !old(cur.closed) then Register(old(cur.State()), Truthy(answer)).value
                       else old(cur.State())
    {
      if key !in addons {
        return Err(KaliKeyError);
      }
      if cur != null {
        if !cur.IsClosed() {
          if Truthy(answer) {
            var _ := cur.AddPassed();
          } else {
            var _ := cur.AddFailed();
          }
        }
      }
      return Ok(answer);
    }

    /** `__new_addon(key, type, **kwargs)`: a taken key is refused; the addon
        is kept only when its `setup()` (`setupOk`) succeeds. */
    method NewAddon(key: string, addon: Addon, setupOk: bool) returns (r: Result<bool, Exc>)
      modifies this
      ensures Registry() == old(Registry()) && Filters() == old(Filters())
      ensures key in old(addons) ==> r == Err(KaliKeyError) && addons == old(addons)
      ensures key !in old(addons) && !setupOk ==> r == Err(KaliSetupError) && addons == old(addons)
      ensures key !in old(addons) && setupOk ==> r == Ok(true) && addons == old(addons)[key := addon]
    {
      if key in addons {
        return Err(KaliKeyError);
      }
      if setupOk {
        addons := addons[key := addon];
        return Ok(true);
      }
      return Err(KaliSetupError);
    }

    /** `remove_addon(key)`: an unknown key is refused, so is an addon whose
        `close` is not callable; the addon is dropped only when its
        `close()` (`closeOk`) succeeds. */
    method RemoveAddon(key: string, closeCallable: bool, closeOk: bool) returns (r: Result<bool, Exc>)
      modifies this
      ensures Registry() == old(Registry()) && Filters() == old(Filters())
      ensures key !in old(addons) ==> r == Err(KaliKeyError) && addons == old(addons)
      ensures key in old(addons) && !closeCallable ==> r == Err(KaliValueError) && addons == old(addons)
      ensures key in old(addons) && closeCallable && !closeOk ==> r == Err(KaliRemoveError) && addons == old(addons)
      ensures key in old(addons) && closeCallable && closeOk ==> r == Ok(true) && addons == old(addons) - {key}
    {
      if key !in addons {
        return Err(KaliKeyError);
      }
      if !closeCallable {
        return Err(KaliValueError);
      }
      if closeOk {
        addons := addons - {key};
        return Ok(true);
      }
      return Err(KaliRemoveError);
    }

    /** `reload_addon(name, **kwargs)`: the arguments overwrite the addon's
        attributes; the result of the following `setup()` is ignored. */
    method ReloadAddon(name: string, kwargs: map<string, Json>) returns (err: Option<Exc>)
      modifies this
      ensures Registry() == old(Registry()) && Filters() == old(Filters())
      ensures name !in old(addons) ==> err == Some(KeyError) && addons == old(addons)
      ensures name in old(addons) ==>
        err == None && addons == old(addons)[name := Addon(old(addons)[name].attrs + kwargs)]
    {
      if name !in addons {
        return Some(KeyError);
      }
      addons := addons[name := Addon(addons[name].attrs + kwargs)];
      return None;
    }

    /** `prettyprint_test_cases_result()`: refused with no case or with an
        open current case. */
    method PrettyPrint() returns (r: Result<string, Exc>)
      ensures |cases| == 0 ==> r == Err(KaliTestCaseError)
      ensures |cases| > 0 && cur != null && !cur.closed ==> r == Err(KaliTestCaseError)
      ensures |cases| > 0 && (cur == null || cur.closed) ==> r == Ok(Table(RowsOf(cases)))
    {
      if |cases| == 0 {
        return Err(KaliTestCaseError);
      } else if cur != null && !cur.closed {
        return Err(KaliTestCaseError);
      }
      var rows := RowsOf(cases);
      var pretty := TableText(rows);
      assert RowsOf(cases) == rows;
      return Ok(pretty);
    }
  }

  /** The text `prettyprint_test_cases_result` builds from the rows. */
  method TableText(rows: seq<Row>) returns (pretty: string)
    ensures pretty == Table(rows)
  {
    var numWidth, nameWidth := ColumnWidths(rows);
    pretty := Heading(numWidth, nameWidth);
    pretty := AppendRows(pretty, numWidth, nameWidth, rows);
    pretty := pretty + TotalLine(numWidth, |rows|);
  }

  /** The first loop of `prettyprint_test_cases_result`: the widest number
      and title, starting from 3 and 5. */
  method ColumnWidths(rows: seq<Row>) returns (numWidth: nat, nameWidth: nat)
    ensures numWidth == NumWidth(rows) && nameWidth == NameWidth(rows)
  {
    numWidth, nameWidth := 3, 5;
    var i := 0;
    while i < |rows|
      invariant 0 <= i <= |rows|
      invariant numWidth == NumWidth(rows[..i]) && nameWidth == NameWidth(rows[..i])
    {
      assert rows[..i + 1][..i] == rows[..i];
      var (num, name) := rows[i].0;
      if |num| > numWidth {
        numWidth := |num|;
      }
      if |name| > nameWidth {
        nameWidth := |name|;
      }
      i := i + 1;
    }
    assert rows[..i] == rows;
  }

  /** The second loop: one row and its separator line per case. */
  method AppendRows(prefix: string, nw: nat, tw: nat, rows: seq<Row>) returns (pretty: string)
    ensures pretty == prefix + RowsText(nw, tw, rows)
  {
    pretty := prefix;
    var i := 0;
    while i < |rows|
      invariant 0 <= i <= |rows|
      invariant pretty == prefix + RowsText(nw, tw, rows[..i])
    {
      assert rows[..i + 1][..i] == rows[..i];
      ConcatAssoc(prefix, RowsText(nw, tw, rows[..i]), RowBlock(nw, tw, rows[i]));
      pretty := pretty + RowBlock(nw, tw, rows[i]);
      i := i + 1;
    }
    assert rows[..i] == rows;
  }

}
