/**
 * The generic trigger contract of pkgcore/merge/triggers.py (`base`) and the
 * part of the merge engine it talks to: a registry from hook name to the
 * triggers registered there. A trigger's class attributes are a value;
 * the registry is an object whose `hooks` field registration extends.
 */
module Engine {
  import opened Wrappers

  datatype Mode = InstallMode | UninstallMode | ReplaceMode

  const UninstallingModes: set<Mode> := {ReplaceMode, UninstallMode}
  const InstallingModes: set<Mode> := {ReplaceMode, InstallMode}

  /** `required_csets`: None (every cset), a tuple of names, or a dict from mode to names. */
  datatype RequiredCsets = AllCsets | Named(names: seq<string>) | PerMode(byMode: map<Mode, seq<string>>)

  /**
   * The class attributes of a trigger. `hooks == None` stands for a `_hooks`
   * that is not iterable; `engineTypes == None` means every mode.
   */
  datatype Trigger = Trigger(className: string, customLabel: Option<string>, hooks: Option<seq<string>>,
                             engineTypes: Option<set<Mode>>, required: RequiredCsets, priority: int)

  /** The attributes `base` itself declares. */
  function BaseTrigger(className: string): (t: Trigger)
    ensures t.className == className && t.priority == 50
    ensures t.customLabel.None? && t.hooks.None? && t.engineTypes.None? && t.required.AllCsets?
  {
    Trigger(className, None, None, None, AllCsets, 50)
  }

  /** `label`: the explicit `_label` if set, else the class name. */
  function Label(t: Trigger): (r: string)
    ensures t.customLabel.Some? ==> r == t.customLabel.value
    ensures t.customLabel.None? ==> r == t.className
  {
    match t.customLabel
    case Some(l) => l
    case None => t.className
  }

  /** `get_required_csets(mode)`; None means the whole mapping is passed. */
  function GetRequiredCsets(t: Trigger, mode: Mode): (r: Option<seq<string>>)
    ensures t.required.AllCsets? ==> r.None?
    ensures t.required.Named? ==> r == Some(t.required.names)
    ensures t.required.PerMode? ==>
      (r.Some? <==> mode in t.required.byMode) &&
      (r.Some? ==> r.value == t.required.byMode[mode])
  {
    match t.required
    case AllCsets => None
    case Named(names) => Some(names)
    case PerMode(byMode) => if mode in byMode then Some(byMode[mode]) else None
  }

  /** `_get_csets`: the named csets in declared order, or the first missing name (`KeyError`). */
  function GetCsets<V>(required: seq<string>, csets: map<string, V>): (r: Result<seq<V>, string>)
    ensures r.Ok? <==> forall i :: 0 <= i < |required| ==> required[i] in csets
    ensures r.Ok? ==>
      |r.value| == |required| &&
      forall i :: 0 <= i < |required| ==> r.value[i] == csets[required[i]]
    ensures r.Err? ==> r.error in required && r.error !in csets
  {
    if required == [] then Ok([])
    else if required[0] !in csets then Err(required[0])
    else
      match GetCsets(required[1..], csets)
      case Err(n) => Err(n)
      case Ok(rest) => Ok([csets[required[0]]] + rest)
  }

  /** What `__call__` hands to `trigger` after the engine. */
  datatype Call<V> = WholeMapping(all: map<string, V>) | Positional(args: seq<V>)

  /** `__call__`: the whole mapping when no csets are required, else exactly the named ones in order. */
  function CallArgs<V>(t: Trigger, mode: Mode, csets: map<string, V>): (r: Result<Call<V>, string>)
    ensures GetRequiredCsets(t, mode).None? ==> r == Ok(WholeMapping(csets))
    ensures GetRequiredCsets(t, mode).Some? ==>
      var names := GetRequiredCsets(t, mode).value;
      (r.Ok? <==> forall i :: 0 <= i < |names| ==> names[i] in csets) &&
      (r.Ok? ==>
         r.value.Positional? && |r.value.args| == |names| &&
         forall i :: 0 <= i < |names| ==> r.value.args[i] == csets[names[i]])
  {
    match GetRequiredCsets(t, mode)
    case None => Ok(WholeMapping(csets))
    case Some(names) =>
      match GetCsets(names, csets)
      case Err(n) => Err(n)
      case Ok(args) => Ok(Positional(args))
  }

  /** One `add_trigger` call: the trigger and the csets it asked for. */
  datatype Registration = Registration(trigger: Trigger, csets: Option<seq<string>>)

  type Registry = map<string, seq<Registration>>

  /** The engine state triggers see and register into. */
  class MergeEngine {
    const mode: Mode
    const offset: string
    var phase: string
    var hooks: Registry

    constructor (mode: Mode, offset: string, hookNames: seq<string>)
      ensures this.mode == mode && this.offset == offset && phase == ""
      ensures hooks == map h | h in hookNames :: []
    {
      this.mode := mode;
      this.offset := offset;
      phase := "";
      hooks := map h | h in hookNames :: [];
    }

    /** `add_trigger`: false stands for the `KeyError` raised for an unknown hook. */
    method AddTrigger(hook: string, t: Trigger, csets: Option<seq<string>>) returns (known: bool)
      modifies this
      ensures known <==> hook in old(hooks)
      ensures hooks == if known then old(hooks)[hook := old(hooks)[hook] + [Registration(t, csets)]]
                       else old(hooks)
      ensures phase == old(phase)
    {
      known := hook in hooks;
      if known {
        hooks := hooks[hook := hooks[hook] + [Registration(t, csets)]];
      }
    }
  }

  /** The registry after `add_trigger` for each hook in turn, unknown ones skipped. */
  function RegisterAll(hooks: Registry, hs: seq<string>, reg: Registration): (r: Registry)
    ensures r.Keys == hooks.Keys
  {
    if hs == [] then hooks
    else
      var next := if hs[0] in hooks then hooks[hs[0] := hooks[hs[0]] + [reg]] else hooks;
      RegisterAll(next, hs[1..], reg)
  }

  datatype RegisterError = HooksNotSequence   // the `TypeError` for a non-iterable `_hooks`

  /** What `register` does to the registry. */
  function RegisterSpec(hooks: Registry, t: Trigger, mode: Mode): (r: Result<Registry, RegisterError>)
    ensures t.engineTypes.Some? && mode !in t.engineTypes.value ==> r == Ok(hooks)
    ensures r.Err? <==> (t.engineTypes.None? || mode in t.engineTypes.value) && t.hooks.None?
    ensures r.Ok? ==> r.value.Keys == hooks.Keys
  {
    if t.engineTypes.Some? && mode !in t.engineTypes.value then Ok(hooks)
    else if t.hooks.None? then Err(HooksNotSequence)
    else Ok(RegisterAll(hooks, t.hooks.value, Registration(t, GetRequiredCsets(t, mode))))
  }

  /** `base.register`. */
  method Register(t: Trigger, engine: MergeEngine) returns (err: Option<RegisterError>)
    modifies engine
    ensures RegisterSpec(old(engine.hooks), t, engine.mode).Ok? <==> err.None?
    ensures engine.hooks == match RegisterSpec(old(engine.hooks), t, engine.mode)
      case Ok(h) => h
      case Err(_) => old(engine.hooks)
    ensures engine.phase == old(engine.phase)
  {
    if t.engineTypes.Some? && engine.mode !in t.engineTypes.value {
      return None;
    }
    if t.hooks.None? {
      return Some(HooksNotSequence);
    }
    var csets := GetRequiredCsets(t, engine.mode);
    var hs := t.hooks.value;
    var reg := Registration(t, csets);
    var k := 0;
    while k < |hs|
      invariant 0 <= k <= |hs|
      invariant engine.phase == old(engine.phase)
      invariant RegisterAll(old(engine.hooks), hs, reg) == RegisterAll(engine.hooks, hs[k..], reg)
    {
      assert hs[k..][1..] == hs[k + 1..];
      var _ := engine.AddTrigger(hs[k], t, csets);
      k := k + 1;
    }
    return None;
  }

  function Count(hs: seq<string>, h: string): nat
  {
    if hs == [] then 0 else (if hs[0] == h then 1 else 0) + Count(hs[1..], h)
  }

  function Repeat(reg: Registration, n: nat): seq<Registration>
  {
    if n == 0 then [] else [reg] + Repeat(reg, n - 1)
  }

  lemma {:induction false} RepeatSnoc(reg: Registration, n: nat)
    ensures Repeat(reg, n) + [reg] == Repeat(reg, n + 1)
  {
    if n > 0 {
      RepeatSnoc(reg, n - 1);
    }
  }

  /**
   * Registration keeps the set of hooks, appends the trigger to every known
   * hook once per time it is named, and leaves every other hook alone: an
   * unknown hook is skipped without stopping the rest.
   */
  lemma {:induction false} RegisterAllAppends(hooks: Registry, hs: seq<string>, reg: Registration, h: string)
    requires h in hooks
    ensures RegisterAll(hooks, hs, reg)[h] == hooks[h] + Repeat(reg, Count(hs, h))
  {
    if hs != [] {
      var next := if hs[0] in hooks then hooks[hs[0] := hooks[hs[0]] + [reg]] else hooks;
      RegisterAllAppends(next, hs[1..], reg, h);
      if hs[0] == h {
        RepeatSnoc(reg, Count(hs[1..], h));
        assert hooks[h] + [reg] + Repeat(reg, Count(hs[1..], h)) == hooks[h] + ([reg] + Repeat(reg, Count(hs[1..], h)));
      } else {
        assert next[h] == hooks[h];
      }
    }
  }

  /** A trigger limited to other modes leaves the registry as it was. */
  lemma RegisterGated(hooks: Registry, t: Trigger, mode: Mode)
    requires t.engineTypes.Some? && mode !in t.engineTypes.value
    ensures RegisterSpec(hooks, t, mode) == Ok(hooks)
  {
  }

  /** `register` fails exactly when the mode is accepted and `_hooks` is not iterable. */
  lemma RegisterFailsIff(hooks: Registry, t: Trigger, mode: Mode)
    ensures RegisterSpec(hooks, t, mode).Err? <==>
      (t.engineTypes.None? || mode in t.engineTypes.value) && t.hooks.None?
  {
  }
}
