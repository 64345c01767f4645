/** Step bookkeeping of one test case (services/lib/kali/test_case.py,
    `KaliTestResultManager`): steps are registered as passed or failed until
    the case is closed, which fixes its verdict. */
module TestResult {
  import opened Wrappers

  /** A closed case passed iff none of its steps failed. */
  function Verdict(steps: seq<bool>): (r: bool)
    ensures r <==> forall i :: 0 <= i < |steps| ==> steps[i]
  {
    false !in steps
  }

  /** The fields of a result manager. */
  datatype ManagerState = ManagerState(steps: seq<bool>, result: Option<bool>, closed: bool)

  const FreshManager := ManagerState([], None, false)

  /** A verdict is set exactly when the case is closed, and a closed case has
      steps and the verdict of its steps. */
  predicate Wf(m: ManagerState)
  {
    if m.closed then m.steps != [] && m.result == Some(Verdict(m.steps)) else m.result == None
  }

  /** `add_passed` (`passed`) and `add_failed` (`!passed`). */
  function Register(m: ManagerState, passed: bool): (r: Result<ManagerState, Exc>)
    ensures r.Err? <==> m.closed
    ensures r.Err? ==> r.error == KaliKeyError
    ensures r.Ok? ==> r.value == m.(steps := m.steps + [passed])
  {
    if m.closed then Err(KaliKeyError) else Ok(m.(steps := m.steps + [passed]))
  }

  /** `close`: refused on a closed case and on a case without steps. */
  function CloseStep(m: ManagerState): (r: Result<ManagerState, Exc>)
    ensures r.Err? <==> m.closed || m.steps == []
    ensures r.Err? ==> r.error == KaliKeyError
    ensures r.Ok? ==> r.value.closed && r.value.steps == m.steps
    ensures r.Ok? ==> (r.value.result == Some(false) <==> exists i :: 0 <= i < |m.steps| && !m.steps[i])
  {
    if m.closed then Err(KaliKeyError)
    else if m.steps == [] then Err(KaliKeyError)
    else Ok(m.(result := Some(Verdict(m.steps)), closed := true))
  }

  /** Both operations keep the manager well formed, and a closed manager
      accepts neither. */
  lemma StepsKeepWf(m: ManagerState, passed: bool)
    requires Wf(m)
    ensures Register(m, passed).Ok? ==> Wf(Register(m, passed).value)
    ensures CloseStep(m).Ok? ==> Wf(CloseStep(m).value)
    ensures m.closed ==> Register(m, passed).Err? && CloseStep(m).Err?
  {
  }

  /** Steps registered one after another on a fresh manager. */
  function RegisterAll(m: ManagerState, steps: seq<bool>): Result<ManagerState, Exc>
    decreases |steps|
  {
    if steps == [] then Ok(m)
    else
      match Register(m, steps[0])
      case Err(e) => Err(e)
      case Ok(m') => RegisterAll(m', steps[1..])
  }

  /** The life of a case: the registered steps are kept in order, the case is
      open until `close`, and `close` succeeds iff some step was registered,
      with the verdict "no step failed".  After that nothing is accepted. */
  lemma {:induction false} Lifecycle(steps: seq<bool>)
    ensures RegisterAll(FreshManager, steps) == Ok(ManagerState(steps, None, false))
    ensures CloseStep(ManagerState(steps, None, false)).Ok? <==> steps != []
    ensures steps != [] ==>
      && CloseStep(ManagerState(steps, None, false)) == Ok(ManagerState(steps, Some(Verdict(steps)), true))
      && Register(ManagerState(steps, Some(Verdict(steps)), true), true).Err?
  {
    RegisterAllAppends([], steps);
    assert [] + steps == steps;
  }

  lemma {:induction false} RegisterAllAppends(done: seq<bool>, steps: seq<bool>)
    ensures RegisterAll(ManagerState(done, None, false), steps) == Ok(ManagerState(done + steps, None, false))
    decreases |steps|
  {
    if steps != [] {
      RegisterAllAppends(done + [steps[0]], steps[1..]);
      assert done + [steps[0]] + steps[1..] == done + steps;
    } else {
      assert done + steps == done;
    }
  }

  /** `KaliTestResultManager`. */
  class ResultManager {
    var steps: seq<bool>
    var result: Option<bool>
    var closed: bool

    function State(): ManagerState
      reads this
    {
      ManagerState(steps, result, closed)
    }

    constructor ()
      ensures State() == FreshManager
    {
      steps, result, closed := [], None, false;
    }

    /** `add_passed()` */
    method AddPassed() returns (err: Option<Exc>)
      modifies this
      ensures State() == (if old(closed) then old(State()) else Register(old(State()), true).value)
      ensures err == (if old(closed) then Some(Register(old(State()), true).error) else None)
    {
      if closed {
        return Some(KaliKeyError);
      }
      steps := steps + [true];
      return None;
    }

    /** `add_failed()` */
    method AddFailed() returns (err: Option<Exc>)
      modifies this
      ensures State() == (if old(closed) then old(State()) else Register(old(State()), false).value)
      ensures err == (if old(closed) then Some(Register(old(State()), false).error) else None)
    {
      if closed {
        return Some(KaliKeyError);
      }
      steps := steps + [false];
      return None;
    }

    /** `close()` */
    method Close() returns (err: Option<Exc>)
      modifies this
      ensures match CloseStep(old(State()))
              case Err(e) => err == Some(e) && State() == old(State())
              case Ok(m) => err == None && State() == m
    {
      if closed {
        return Some(KaliKeyError);
      }
      if steps == [] {
        return Some(KaliKeyError);
      }
      if false in steps {
        result := Some(false);
      } else {
        result := Some(true);
      }
      closed := true;
      return None;
    }

    /** `is_closed()`: in a well-formed manager, closed exactly when a
        verdict is set, and then it is the verdict of the steps. */
    function IsClosed(): (r: bool)
      reads this
      ensures Wf(State()) ==> (r <==> result.Some?) && (r ==> steps != [] && result == Some(Verdict(steps)))
    {
      closed
    }
  }
}

/** A test case's own settings (services/lib/kali/test_case.py,
    `KaliTestCase`): its tags, the areas it is destructive for, its
    compatibility table, and how it asks the runner for an addon. */
module TestCase {
  import opened Wrappers
  import opened Values
  import opened Kali

  /** What `is_destructive(mode)` answers: a flag for a mode, the whole list
      without one. */
  datatype Destructive = Flag(b: bool) | All(modes: seq<string>)

  /** The compatibility table after `set_compatibility(k, v)` for each pair
      in turn: keys outside `valid` are dropped. */
  function Compatibilities(table: map<string, Json>, valid: set<string>, pairs: seq<(string, Json)>): (r: map<string, Json>)
    ensures r.Keys <= table.Keys + valid
    decreases |pairs|
  {
    if pairs == [] then table
    else
      var (k, v) := pairs[|pairs| - 1];
      var t := Compatibilities(table, valid, pairs[..|pairs| - 1]);
      if k in valid then t[k := v] else t
  }

  /** A key the pairs do not mention keeps its old entry, or its absence. */
  lemma {:induction false} CompatibilitiesUntouched(table: map<string, Json>, valid: set<string>, pairs: seq<(string, Json)>, k: string)
    requires forall i :: 0 <= i < |pairs| ==> pairs[i].0 != k
    ensures var r := Compatibilities(table, valid, pairs);
      (k in r <==> k in table) && (k in r ==> r[k] == table[k])
    decreases |pairs|
  {
    if pairs != [] {
      var init := pairs[..|pairs| - 1];
      assert pairs[|pairs| - 1].0 != k;
      CompatibilitiesUntouched(table, valid, init, k);
    }
  }

  /** A valid key holds the value of the last pair that mentions it. */
  lemma {:induction false} CompatibilitiesLastWins(table: map<string, Json>, valid: set<string>, pairs: seq<(string, Json)>, i: nat)
    requires i < |pairs| && pairs[i].0 in valid
    requires forall j :: i < j < |pairs| ==> pairs[j].0 != pairs[i].0
    ensures var r := Compatibilities(table, valid, pairs);
      pairs[i].0 in r && r[pairs[i].0] == pairs[i].1
    decreases |pairs|
  {
    if i < |pairs| - 1 {
      var init := pairs[..|pairs| - 1];
      assert init[i] == pairs[i];
      assert pairs[|pairs| - 1].0 != pairs[i].0;
      CompatibilitiesLastWins(table, valid, init, i);
    }
  }

  /** The arguments `__add_addon` passes to `reload_addon` for an addon that
      exists: every keyword argument named like an attribute of the addon,
      whatever its current value. */
  function ReloadArgs(attrs: map<string, Json>, kwargs: map<string, Json>): (r: map<string, Json>)
    ensures r.Keys == attrs.Keys * kwargs.Keys
    ensures forall k :: k in r ==> r[k] == kwargs[k]
  {
    map k | k in attrs && k in kwargs :: kwargs[k]
  }

  /** A reload writes the keyword arguments into the addon, after which a
      second `__add_addon` with the same arguments reloads the addon again
      with the same arguments, although nothing differs any more. */
  lemma ReloadRepeats(attrs: map<string, Json>, kwargs: map<string, Json>)
    ensures var after := attrs + ReloadArgs(attrs, kwargs);
      && after.Keys == attrs.Keys
      && (forall k :: k in ReloadArgs(attrs, kwargs) ==> after[k] == kwargs[k])
      && ReloadArgs(after, kwargs) == ReloadArgs(attrs, kwargs)
  {
    var d := ReloadArgs(attrs, kwargs);
    var after := attrs + d;
    assert after.Keys == attrs.Keys;
    assert ReloadArgs(after, kwargs).Keys == d.Keys;
  }

  class KaliTestCase {
    var tags: seq<string>
    var destructive: seq<string>
    var compatibilities: map<string, Json>
    var kwargs: map<string, Json>
    /** `VALID_KEYS_COMPATIBILIES`, which is defined outside this model. */
    const validKeys: set<string>

    /** `KaliTestCase(kali, logger, title, number, **kwargs)` */
    constructor (kwargs: map<string, Json>, validKeys: set<string>)
      ensures tags == [] && destructive == [] && compatibilities == map[]
      ensures this.kwargs == kwargs && this.validKeys == validKeys
    {
      tags, destructive, compatibilities := [], [], map[];
      this.kwargs, this.validKeys := kwargs, validKeys;
    }

    /** `set_tags(tags)`: replaces the tags with a list of texts; any other
        value changes nothing. */
    method SetTags(given: Json)
      modifies this
      ensures tags == StrItems(given).GetOr(old(tags))
      ensures destructive == old(destructive) && compatibilities == old(compatibilities) && kwargs == old(kwargs)
    {
      var items := StrItems(given);
      if items.Some? {
        tags := items.value;
      }
    }

    /** `add_tags(tags)`: extends the tags with a list of texts; any other
        value changes nothing. */
    method AddTags(given: Json)
      modifies this
      ensures tags == old(tags) + StrItems(given).GetOr([])
      ensures destructive == old(destructive) && compatibilities == old(compatibilities) && kwargs == old(kwargs)
    {
      var items := StrItems(given);
      if items.Some? {
        tags := tags + items.value;
      }
    }

    /** `set_distructive_lan()` */
    method SetDestructiveLan()
      modifies this
      ensures destructive == old(destructive) + ["Lan"]
      ensures tags == old(tags) && compatibilities == old(compatibilities) && kwargs == old(kwargs)
    {
      destructive := destructive + ["Lan"];
    }

    /** `set_distructive_media()` */
    method SetDestructiveMedia()
      modifies this
      ensures destructive == old(destructive) + ["Media"]
      ensures tags == old(tags) && compatibilities == old(compatibilities) && kwargs == old(kwargs)
    {
      destructive := destructive + ["Media"];
    }

    /** `set_distructive_cloud()` */
    method SetDestructiveCloud()
      modifies this
      ensures destructive == old(destructive) + ["Cloud"]
      ensures tags == old(tags) && compatibilities == old(compatibilities) && kwargs == old(kwargs)
    {
      destructive := destructive + ["Cloud"];
    }

    /** `is_destructive(mode)`: membership for a non-empty mode, the list
        itself for `None` or `''`. */
    function IsDestructive(mode: Option<string>): (r: Destructive)
      reads this
      ensures mode.Some? && mode.value != "" ==> r == Flag(exists i :: 0 <= i < |destructive| && destructive[i] == mode.value)
      ensures mode.None? || mode.value == "" ==> r == All(destructive)
    {
      if mode.Some? && mode.value != "" then Flag(mode.value in destructive) else All(destructive)
    }

    /** `set_compatibility(key, value)`: only a valid key is stored; another
        key is only logged. */
    method SetCompatibility(key: string, value: Json)
      modifies this
      ensures compatibilities == Compatibilities(old(compatibilities), validKeys, [(key, value)])
      ensures tags == old(tags) && destructive == old(destructive) && kwargs == old(kwargs)
    {
      if key in validKeys {
        compatibilities := compatibilities[key := value];
      }
    }

    /** `set_compatibilities(pairs)`: `set_compatibility` on each pair in
        turn. */
    method SetCompatibilities(pairs: seq<(string, Json)>)
      modifies this
      ensures compatibilities == Compatibilities(old(compatibilities), validKeys, pairs)
      ensures tags == old(tags) && destructive == old(destructive) && kwargs == old(kwargs)
    {
      var i := 0;
      while i < |pairs|
        invariant 0 <= i <= |pairs|
        invariant compatibilities == Compatibilities(old(compatibilities), validKeys, pairs[..i])
        invariant tags == old(tags) && destructive == old(destructive) && kwargs == old(kwargs)
      {
        assert pairs[..i + 1][..i] == pairs[..i];
        SetCompatibility(pairs[i].0, pairs[i].1);
        i := i + 1;
      }
      assert pairs[..i] == pairs;
    }

    /** `is_compatible_with(key)`: reads the attribute `compatibility`, which
        only a keyword argument of that name creates (the table kept by
        `set_compatibility` is `compatibilities`).  A missing key answers
        true; a missing attribute is an AttributeError. */
    function IsCompatibleWith(key: string): (r: Result<Json, Exc>)
      reads this
      ensures "compatibility" !in kwargs ==> r == Err(AttributeError)
      ensures "compatibility" in kwargs && kwargs["compatibility"].Obj? && key !in Keys(kwargs["compatibility"].entries)
        ==> r == Ok(Bool(true))
    {
      if "compatibility" !in kwargs then Err(AttributeError)
      else
        match Index(kwargs["compatibility"], key)
        case Ok(v) => Ok(v)
        case Err(e) => if e == KeyError then Ok(Bool(true)) else Err(e)
    }

    /** `__add_addon(name, ...)`: an unknown name is created from the keyword
        arguments (kept only if its `setup()` succeeds); a known one is
        reloaded with `ReloadArgs` when that map is not empty. */
    method AddAddon(kali: Kali, name: string, setupOk: bool) returns (err: Option<Exc>)
      modifies kali
      ensures kali.Registry() == old(kali.Registry()) && kali.Filters() == old(kali.Filters())
      ensures name !in old(kali.addons) ==>
        && err == (if setupOk then None else Some(KaliSetupError))
        && kali.addons == if setupOk then old(kali.addons)[name := Addon(kwargs)] else old(kali.addons)
      ensures name in old(kali.addons) ==>
        && err == None
        && var d := ReloadArgs(old(kali.addons)[name].attrs, kwargs);
           kali.addons == if |d| > 0 then old(kali.addons)[name := Addon(old(kali.addons)[name].attrs + d)]
                          else old(kali.addons)
    {
      if name !in kali.addons {
        var r := kali.NewAddon(name, Addon(kwargs), setupOk);
        return if r.Err? then Some(r.error) else None;
      } else {
        var addon := kali.addons[name];
        var differences := ReloadArgs(addon.attrs, kwargs);
        if |differences| > 0 {
          var _ := kali.ReloadAddon(name, differences);
        }
        return None;
      }
    }
  }
}
