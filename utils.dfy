/** Bit-mask decoding and the per-platform release configuration: the
    release set for a platform in the environment selects, by longest
    matching prefix, the list of configuration updates that apply to it.
    The process environment is an explicit map from names to values. */
module Utils {
  import opened Wrappers

  // ---------------------------------------------------------------------------
  // bitmask

  /** Python's `&` on non-negative integers. */
  function BitAnd(a: nat, b: nat): nat
    decreases a
  {
    if a == 0 || b == 0 then 0
    else 2 * BitAnd(a / 2, b / 2) + (if a % 2 == 1 && b % 2 == 1 then 1 else 0)
  }

  function Pow2(k: nat): (r: nat)
    ensures r >= 1
  {
    if k == 0 then 1 else 2 * Pow2(k - 1)
  }

  /** Bit `k` of `a`, counting from the least significant. */
  predicate BitSet(a: nat, k: nat)
  {
    if k == 0 then a % 2 == 1 else BitSet(a / 2, k - 1)
  }

  /** A mask of a single bit selects a value exactly when that bit is set in
      it: the use the one-bit-per-name masks are made for. */
  lemma {:induction false} BitAndSingleBit(a: nat, k: nat)
    ensures BitAnd(a, Pow2(k)) != 0 <==> BitSet(a, k)
    decreases k
  {
    if k == 0 {
      if a != 0 {
        assert BitAnd(a / 2, 0) == 0;
      }
    } else {
      BitAndSingleBit(a / 2, k - 1);
      assert Pow2(k) / 2 == Pow2(k - 1) && Pow2(k) % 2 == 0;
      if a != 0 {
        assert BitAnd(a, Pow2(k)) == 2 * BitAnd(a / 2, Pow2(k - 1));
      }
    }
  }

  /** The names whose mask value shares a bit with `value`, in mask order. */
  function Selected(mask: seq<(string, nat)>, value: nat): (r: seq<string>)
    decreases |mask|
  {
    if mask == [] then []
    else
      var last := mask[|mask| - 1];
      Selected(mask[..|mask| - 1], value) + (if BitAnd(last.1, value) != 0 then [last.0] else [])
  }

  /** A name is selected exactly when one of its mask entries shares a bit
      with the value, and the selection keeps the order of the mask. */
  lemma {:induction false} SelectedNames(mask: seq<(string, nat)>, value: nat)
    ensures forall n :: n in Selected(mask, value)
              <==> exists i :: 0 <= i < |mask| && mask[i].0 == n && BitAnd(mask[i].1, value) != 0
    ensures |Selected(mask, value)| <= |mask|
    decreases |mask|
  {
    if mask != [] {
      var init := mask[..|mask| - 1];
      SelectedNames(init, value);
      assert forall i :: 0 <= i < |init| ==> init[i] == mask[i];
      forall n | n in Selected(mask, value)
        ensures exists i :: 0 <= i < |mask| && mask[i].0 == n && BitAnd(mask[i].1, value) != 0
      {
        if n !in Selected(init, value) {
          assert mask[|mask| - 1].0 == n;
        }
      }
    }
  }

  /** `bitmask` */
  method Bitmask(value: nat, mask: seq<(string, nat)>) returns (result: seq<string>)
    ensures result == Selected(mask, value)
  {
    result := [];
    var i := 0;
    while i < |mask|
      invariant 0 <= i <= |mask|
      invariant result == Selected(mask[..i], value)
    {
      assert mask[..i + 1][..i] == mask[..i];
      var (name, binval) := mask[i];
      if BitAnd(binval, value) != 0 {
        result := result + [name];
      }
      i := i + 1;
    }
    assert mask[..i] == mask;
  }

  // ---------------------------------------------------------------------------
  // Platforms and their configuration

  datatype Platform = Spot | Omnia

  /** `str(platform)`: the enum member's value, the name of the environment
      variable holding the platform's release. */
  function PlatformName(p: Platform): string
  {
    match p
    case Spot => "SPOT M3/M5/M7 Platform"
    case Omnia => "Omnia Platform"
  }

  datatype ConfigUpdate = ExtendedLogin | Mac3TdesExtend

  /** A platform's table: release labels, in order, each with the updates
      that apply from that release on. */
  type ReleaseTable = seq<(string, seq<ConfigUpdate>)>

  predicate IsPrefix(k: string, s: string)
  {
    |k| <= |s| && s[..|k|] == k
  }

  /** `set_env`: the release is stored under the platform's name. */
  function SetEnv(env: map<string, string>, platform: Dyn<Platform>, version: Dyn<string>)
    : (r: Result<map<string, string>, Exc>)
    ensures r.Err? <==> platform.Other? || version.Other?
    ensures r.Err? ==> r.error == TypeError
    ensures r.Ok? ==> PlatformName(platform.v) in r.value && r.value[PlatformName(platform.v)] == version.v
    ensures r.Ok? ==> forall n :: n != PlatformName(platform.v) ==> (n in r.value <==> n in env)
    ensures r.Ok? ==> forall n :: n in env && n != PlatformName(platform.v) ==> n in r.value && r.value[n] == env[n]
  {
    if platform.Other? then Err(TypeError)
    else if version.Other? then Err(TypeError)
    else Ok(env[PlatformName(platform.v) := version.v])
  }

  /** The label the loop of `check_env` ends with: among the labels that
      start the release and are longer than any earlier pick, the last one;
      the empty text when none does. */
  function Release(labels: seq<string>, version: string): (r: string)
    ensures r == "" || (r in labels && IsPrefix(r, version) && |r| <= |version|)
    decreases |labels|
  {
    if labels == [] then ""
    else
      var best := Release(labels[..|labels| - 1], version);
      var k := labels[|labels| - 1];
      if IsPrefix(k, version) && |version| >= |k| > |best| then k else best
  }

  function Labels(table: ReleaseTable): (r: seq<string>)
    ensures |r| == |table| && forall i :: 0 <= i < |table| ==> r[i] == table[i].0
  {
    if table == [] then [] else [table[0].0] + Labels(table[1..])
  }

  /** The release picked is the longest label that starts the release: it is
      either empty, with no non-empty label starting the release, or a label
      starting the release that no such label is longer than. */
  lemma {:induction false} ReleaseLongest(labels: seq<string>, version: string)
    ensures var r := Release(labels, version);
      && (r == "" || (r in labels && IsPrefix(r, version)))
      && forall k :: k in labels && IsPrefix(k, version) ==> |k| <= |r|
    decreases |labels|
  {
    if labels != [] {
      var init := labels[..|labels| - 1];
      ReleaseLongest(init, version);
      assert forall k :: k in labels ==> k in init || k == labels[|labels| - 1];
    }
  }

  /** Two labels starting the same release with the same length are equal,
      so the pick does not depend on the order of the table. */
  lemma PrefixUnique(a: string, b: string, version: string)
    requires IsPrefix(a, version) && IsPrefix(b, version) && |a| == |b|
    ensures a == b
  {
    assert a == version[..|a|];
  }

  /** The updates listed under a label, from the first entry carrying it. */
  function Lookup(table: ReleaseTable, key: string): (r: Option<seq<ConfigUpdate>>)
    ensures r.None? <==> key !in Labels(table)
  {
    if table == [] then None
    else if table[0].0 == key then Some(table[0].1)
    else Lookup(table[1..], key)
  }

  /** What `check_env` answers. */
  function CheckEnvSpec(env: map<string, string>, platform: Dyn<Platform>, requested: Dyn<ConfigUpdate>,
                        config: map<Platform, ReleaseTable>): (r: Result<bool, Exc>)
    ensures r.Err? ==> r.error == TypeError || r.error == KeyError
    ensures r.Err? && r.error == KeyError ==> platform.Is? && platform.v !in config
  {
    if platform.Other? || requested.Other? then Err(TypeError)
    else if PlatformName(platform.v) !in env then Ok(true)
    else if platform.v !in config then Err(KeyError)
    else
      var table := config[platform.v];
      var release := Release(Labels(table), env[PlatformName(platform.v)]);
      if |release| == 0 then Ok(false)
      else match Lookup(table, release)
        case Some(updates) => Ok(requested.v in updates)
        case None => Err(KeyError)
  }

  /** `check_env` answers true for a platform with no release set, false
      when no label starts the release, and otherwise whether the update is
      listed under the longest label starting it. */
  lemma CheckEnvCases(env: map<string, string>, p: Platform, c: ConfigUpdate, config: map<Platform, ReleaseTable>)
    requires p in config
    ensures PlatformName(p) !in env ==> CheckEnvSpec(env, Is(p), Is(c), config) == Ok(true)
    ensures PlatformName(p) in env ==>
      var version := env[PlatformName(p)];
      var release := Release(Labels(config[p]), version);
      && ((forall k :: k in Labels(config[p]) && IsPrefix(k, version) ==> k == "")
            ==> CheckEnvSpec(env, Is(p), Is(c), config) == Ok(false))
      && (release != "" ==>
            && IsPrefix(release, version)
            && Lookup(config[p], release).Some?
            && CheckEnvSpec(env, Is(p), Is(c), config) == Ok(c in Lookup(config[p], release).value))
  {
    if PlatformName(p) in env {
      ReleaseLongest(Labels(config[p]), env[PlatformName(p)]);
    }
  }

  /** After `set_env`, `check_env` for the same platform reads the release
      just set. */
  lemma SetThenCheck(env: map<string, string>, p: Platform, version: string, c: ConfigUpdate,
                     config: map<Platform, ReleaseTable>)
    requires p in config
    ensures SetEnv(env, Is(p), Is(version)).Ok?
    ensures var env2 := SetEnv(env, Is(p), Is(version)).value;
      var release := Release(Labels(config[p]), version);
      && (release == "" ==> CheckEnvSpec(env2, Is(p), Is(c), config) == Ok(false))
      && (release != "" ==>
            && Lookup(config[p], release).Some?
            && CheckEnvSpec(env2, Is(p), Is(c), config) == Ok(c in Lookup(config[p], release).value))
  {
    var env2 := env[PlatformName(p) := version];
    assert SetEnv(env, Is(p), Is(version)) == Ok(env2);
    assert PlatformName(p) in env2 && env2[PlatformName(p)] == version;
    CheckEnvCases(env2, p, c, config);
  }

  /** The loop of `check_env` over the platform's labels. */
  method PickRelease(table: ReleaseTable, version: string) returns (release: string)
    ensures release == Release(Labels(table), version)
  {
    var labels := Labels(table);
    release := "";
    var i := 0;
    while i < |table|
      invariant 0 <= i <= |table|
      invariant release == Release(labels[..i], version)
    {
      assert labels[..i + 1][..i] == labels[..i];
      var k := table[i].0;
      if IsPrefix(k, version) && |version| >= |k| > |release| {
        release := k;
      }
      i := i + 1;
    }
    assert labels[..i] == labels;
  }

  /** `check_env` */
  method CheckEnv(env: map<string, string>, platform: Dyn<Platform>, requested: Dyn<ConfigUpdate>,
                  config: map<Platform, ReleaseTable>) returns (r: Result<bool, Exc>)
    ensures r == CheckEnvSpec(env, platform, requested, config)
  {
    if platform.Other? {
      return Err(TypeError);
    }
    if requested.Other? {
      return Err(TypeError);
    }
    var name := PlatformName(platform.v);
    if name !in env {
      return Ok(true);
    }
    if platform.v !in config {
      return Err(KeyError);
    }
    var table := config[platform.v];
    var release := PickRelease(table, env[name]);
    if |release| == 0 {
      return Ok(false);
    }
    var updates := Lookup(table, release);
    if updates.None? {
      return Err(KeyError);
    }
    return Ok(requested.v in updates.value);
  }

  // ---------------------------------------------------------------------------
  // The tables of the configuration module

  /** The release table of the SPOT platform. */
  function SpotTable(): ReleaseTable
  {
    [ ("42.11.", [ExtendedLogin, Mac3TdesExtend]),
      ("42.10.12", [Mac3TdesExtend]),
      ("42.10.13", [Mac3TdesExtend]),
      ("42.10.14", [Mac3TdesExtend]),
      ("52.11.", [ExtendedLogin]),
      ("52.11.03", [Mac3TdesExtend]),
      ("52.11.07", [Mac3TdesExtend]) ]
  }

  /** `PLATFORMS_CONFIG`: the SPOT table, and an empty one for Omnia. */
  function PlatformsConfig(): map<Platform, ReleaseTable>
  {
    map[Spot := SpotTable(), Omnia := []]
  }

  /** The worked example of the configuration rules: with labels `12.34`,
      `12.56` and `12.34.56`, release `12.34.56.78` selects `12.34.56`,
      and `12.56` and `12.34` select themselves. */
  lemma IncrementalExample()
    ensures Release(["12.34", "12.56", "12.34.56"], "12.34.56.78") == "12.34.56"
    ensures Release(["12.34", "12.56", "12.34.56"], "12.56") == "12.56"
    ensures Release(["12.34", "12.56", "12.34.56"], "12.34") == "12.34"
    ensures Release(["12.34", "12.56", "12.34.56"], "13.0") == ""
  {
    var labels: seq<string> := ["12.34", "12.56", "12.34.56"];
    assert labels[..2][..1] == ["12.34"] && labels[..2] == ["12.34", "12.56"];
    assert labels[..|labels| - 1] == labels[..2];
    assert labels[..2][..|labels[..2]| - 1] == ["12.34"];
    assert ["12.34"][..0] == [];
  }

  /** No release label is configured for Omnia, so once a release is set
      for it every update is reported as not applying. */
  lemma OmniaExample(version: string, c: ConfigUpdate)
    ensures CheckEnvSpec(map[PlatformName(Omnia) := version], Is(Omnia), Is(c), PlatformsConfig()) == Ok(false)
  {
    assert PlatformsConfig()[Omnia] == [];
  }
}
