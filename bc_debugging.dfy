/**
 * BuildCraft's debug switches. A JVM system property `buildcraft.debug` (read once,
 * when the class is initialised) selects an overall debug status; each debug key
 * can further be switched on by the property `buildcraft.<key>.debug=true`, read
 * whenever a key is asked about. System properties are a map from names to values;
 * an absent name is Java's `null`.
 */
module Debugging {
  import Wrappers

  datatype DebugStatus = None | Enable | LoggingOnly | All

  /** The property that selects the overall status. */
  const DebugPropertyName: string := "buildcraft.debug"

  /** `System.getProperty(name)`. */
  function GetProperty(props: map<string, string>, name: string): (value: Wrappers.Option<string>)
    ensures value.Some? <==> name in props
    ensures value.Some? ==> value.value == props[name]
  {
    if name in props then Wrappers.Some(props[name]) else Wrappers.None
  }

  /** The recognised values of `buildcraft.debug` (matched exactly, case included) and what each selects. */
  const ExplicitStatus: map<string, DebugStatus> :=
    map["enable" := Enable, "all" := All, "disable" := None, "log" := LoggingOnly]

  /**
   * The status the class initialiser selects from the value of `buildcraft.debug`
   * and the dev-environment test: a recognised value decides; otherwise (other
   * text, or no property at all) the environment does.
   */
  function SelectedStatus(value: Wrappers.Option<string>, devEnvironment: bool): (status: DebugStatus)
    ensures status == All <==> value == Wrappers.Some("all")
    ensures status == LoggingOnly <==> value == Wrappers.Some("log")
    ensures status == Enable <==> value == Wrappers.Some("enable") || (devEnvironment && !IsRecognised(value))
    ensures status == None <==> value == Wrappers.Some("disable") || (!devEnvironment && !IsRecognised(value))
  {
    if IsRecognised(value) then ExplicitStatus[value.value]
    else if devEnvironment then Enable
    else None
  }

  /** The property is set to one of the recognised values. */
  predicate IsRecognised(value: Wrappers.Option<string>) {
    value.Some? && value.value in ExplicitStatus
  }

  lemma ExplicitValuesSelect(devEnvironment: bool)
    ensures SelectedStatus(Wrappers.Some("enable"), devEnvironment) == Enable
    ensures SelectedStatus(Wrappers.Some("all"), devEnvironment) == All
    ensures SelectedStatus(Wrappers.Some("disable"), devEnvironment) == None
    ensures SelectedStatus(Wrappers.Some("log"), devEnvironment) == LoggingOnly
  {
  }

  /** Any other value, or none, falls back to the environment test. */
  lemma OtherValuesFollowEnvironment(value: Wrappers.Option<string>, devEnvironment: bool)
    requires value.Some? ==> value.value != "enable" && value.value != "all"
                             && value.value != "disable" && value.value != "log"
    ensures SelectedStatus(value, devEnvironment) == if devEnvironment then Enable else None
  {
  }

  /** ASCII lower case, to state what case-sensitive matching rules out. */
  function ToLower(s: string): (t: string)
    ensures |t| == |s|
    ensures forall i :: 0 <= i < |s| ==> t[i] == if 'A' <= s[i] <= 'Z' then (s[i] as int + 32) as char else s[i]
  {
    seq(|s|, i requires 0 <= i < |s| => if 'A' <= s[i] <= 'Z' then (s[i] as int + 32) as char else s[i])
  }

  /**
   * Matching is case-sensitive: a value that differs from a recognised one only
   * in case is not recognised, and the environment decides.
   */
  lemma CaseVariantsNotRecognised(v: string, w: string, devEnvironment: bool)
    requires v in ExplicitStatus && w != v && ToLower(w) == v
    ensures SelectedStatus(Wrappers.Some(w), devEnvironment) == if devEnvironment then Enable else None
  {
    RecognisedValuesAreLowerCase();
  }

  /** Every recognised value is already in lower case. */
  lemma RecognisedValuesAreLowerCase()
    ensures forall v :: v in ExplicitStatus ==> ToLower(v) == v
  {
    assert ToLower("enable") == "enable";
    assert ToLower("all") == "all";
    assert ToLower("disable") == "disable";
    assert ToLower("log") == "log";
  }

  /** An explicit value wins over the environment, so `"disable"` silences even a dev environment. */
  lemma ExplicitValueOverridesEnvironment(v: string)
    requires v in ExplicitStatus
    ensures SelectedStatus(Wrappers.Some(v), true) == SelectedStatus(Wrappers.Some(v), false)
    ensures SelectedStatus(Wrappers.Some("disable"), true) == None
  {
  }

  /** `getRaw(name)`: the property is present and is exactly `"true"`. */
  function GetRaw(props: map<string, string>, name: string): (enabled: bool)
    ensures enabled ==> name in props
    ensures name in props ==> (enabled <==> props[name] == "true")
  {
    GetProperty(props, name) == Wrappers.Some("true")
  }

  const PropPrefix: string := "buildcraft."
  const PropSuffix: string := ".debug"

  /** `getProp(key)`: the name of the per-key switch. */
  function GetProp(key: string): (prop: string)
    ensures |prop| == |PropPrefix| + |key| + |PropSuffix|
    ensures prop[..|PropPrefix|] == PropPrefix
    ensures prop[|PropPrefix|..|PropPrefix| + |key|] == key
    ensures prop[|PropPrefix| + |key|..] == PropSuffix
  {
    PropPrefix + key + PropSuffix
  }

  /** The key a per-key switch name belongs to, if it has that shape. */
  function KeyOfProp(prop: string): (key: Wrappers.Option<string>)
    ensures key.Some? ==> |key.value| + |PropPrefix| + |PropSuffix| == |prop|
  {
    if |prop| >= |PropPrefix| + |PropSuffix|
       && prop[..|PropPrefix|] == PropPrefix
       && prop[|prop| - |PropSuffix|..] == PropSuffix
    then Wrappers.Some(prop[|PropPrefix|..|prop| - |PropSuffix|])
    else Wrappers.None
  }

  lemma KeyOfPropRoundTrip(key: string)
    ensures KeyOfProp(GetProp(key)) == Wrappers.Some(key)
  {
    var p := GetProp(key);
    assert p[..|PropPrefix|] == PropPrefix;
    assert p[|p| - |PropSuffix|..] == PropSuffix;
    assert p[|PropPrefix|..|p| - |PropSuffix|] == key;
  }

  lemma GetPropRoundTrip(prop: string)
    requires KeyOfProp(prop).Some?
    ensures GetProp(KeyOfProp(prop).value) == prop
  {
    var k := KeyOfProp(prop).value;
    assert prop == prop[..|PropPrefix|] + k + prop[|prop| - |PropSuffix|..];
  }

  /** Distinct keys have distinct switches, and no switch is the overall property. */
  lemma GetPropDistinct(k1: string, k2: string)
    ensures GetProp(k1) == GetProp(k2) ==> k1 == k2
    ensures GetProp(k1) != DebugPropertyName
  {
    KeyOfPropRoundTrip(k1);
    KeyOfPropRoundTrip(k2);
    assert |GetProp(k1)| >= |PropPrefix| + |PropSuffix| > |DebugPropertyName|;
  }

  /**
   * The class's static state. The constructor is the static initialiser: it reads
   * `buildcraft.debug` from the properties at class-load time and takes the result
   * of the dev-environment test as a parameter.
   */
  class BCDebugging {
    const status: DebugStatus
    const debugAll: bool
    const debugLogging: bool

    /** The derived flags agree with the status. */
    ghost predicate Valid() {
      debugAll == (status == All) && debugLogging == (debugAll || status == LoggingOnly)
    }

    constructor (props: map<string, string>, devEnvironment: bool)
      ensures Valid()
      ensures status == SelectedStatus(GetProperty(props, DebugPropertyName), devEnvironment)
    {
      var value := GetProperty(props, DebugPropertyName);
      var s: DebugStatus;
      if value == Wrappers.Some("enable") {
        s := Enable;
      } else if value == Wrappers.Some("all") {
        s := All;
      } else if value == Wrappers.Some("disable") {
        s := None;
      } else if value == Wrappers.Some("log") {
        s := LoggingOnly;
      } else if devEnvironment {
        s := Enable;
      } else {
        s := None;
      }
      status := s;
      debugAll := s == All;
      debugLogging := (s == All) || s == LoggingOnly;
    }

    lemma FlagsOrdered()
      requires Valid()
      ensures debugAll ==> debugLogging
      ensures debugLogging <==> status == All || status == LoggingOnly
    {
    }

    /**
     * `shouldDebug(key, type, isAll)` against the system properties `props` at the
     * time of the call.
     */
    function ShouldDebug(props: map<string, string>, key: string, isAll: bool): (enabled: bool)
      ensures enabled <==> isAll || (status != None && GetProp(key) in props && props[GetProp(key)] == "true")
    {
      if isAll then true
      else if status == None then false
      else GetRaw(props, GetProp(key))
    }

    /** `shouldDebugComplex(key)`: on for every key only under `All`. */
    function ShouldDebugComplex(props: map<string, string>, key: string): (enabled: bool)
      requires Valid()
      ensures enabled <==> status == All || (status != None && GetRaw(props, GetProp(key)))
    {
      ShouldDebug(props, key, debugAll)
    }

    /** `shouldDebugLog(key)`: on for every key under `All` and `LoggingOnly`. */
    function ShouldDebugLog(props: map<string, string>, key: string): (enabled: bool)
      requires Valid()
      ensures enabled <==> status == All || status == LoggingOnly || (status != None && GetRaw(props, GetProp(key)))
    {
      ShouldDebug(props, key, debugLogging)
    }

    lemma IsAllOverridesKey(props: map<string, string>, key: string)
      ensures ShouldDebug(props, key, true)
    {
    }

    /** Under status `None` no per-key switch has any effect. */
    lemma NoneSilencesKey(props: map<string, string>, key: string)
      requires status == None
      ensures !ShouldDebug(props, key, false)
      ensures ShouldDebug(props, key, false) == ShouldDebug(props[GetProp(key) := "true"], key, false)
    {
    }

    /** Otherwise the per-key switch decides, and only an exact `"true"` turns it on. */
    lemma KeySwitchDecides(props: map<string, string>, key: string)
      requires status != None
      ensures ShouldDebug(props, key, false) <==> GetProp(key) in props && props[GetProp(key)] == "true"
    {
    }

    lemma UnderAll(props: map<string, string>, key: string)
      requires Valid() && status == All
      ensures ShouldDebugComplex(props, key) && ShouldDebugLog(props, key)
    {
    }

    lemma UnderLoggingOnly(props: map<string, string>, key: string)
      requires Valid() && status == LoggingOnly
      ensures ShouldDebugLog(props, key)
      ensures ShouldDebugComplex(props, key) <==> GetRaw(props, GetProp(key))
    {
    }

    lemma UnderEnable(props: map<string, string>, key: string)
      requires Valid() && status == Enable
      ensures ShouldDebugLog(props, key) <==> GetRaw(props, GetProp(key))
      ensures ShouldDebugComplex(props, key) <==> GetRaw(props, GetProp(key))
    {
    }

    lemma UnderNone(props: map<string, string>, key: string)
      requires Valid() && status == None
      ensures !ShouldDebugLog(props, key) && !ShouldDebugComplex(props, key)
    {
    }
  }
}
