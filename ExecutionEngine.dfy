/** The argument matcher and overload picker of
    src/DependencyInjection/ExecutionEngine.cs: building a parameter map for
    one candidate, choosing among candidates, invoking the winner and copying
    out/by-ref results back into the caller's argument array. */
module ExecutionEngine {
  import opened Wrappers
  import opened Runtime

  // ---------------------------------------------------------------------------
  // Parameter maps (CreateParameterMap)
  // ---------------------------------------------------------------------------

  /** What one parameter slot takes from the caller's arguments. */
  datatype SlotBinding = Bind(value: Value) | NoBind

  /** The binding of slot `p` when the argument cursor stands at `used`. The
      scan over the arguments breaks on every path, so it only ever examines
      `args[used]`. Once the by-ref wrapper is stripped from the parameter
      type, that type is never by-ref, so a null argument binds only to an
      `out` parameter (and leaves the slot's value null). */
  function BindSlot(ts: TypeSystem, p: Param, args: seq<Value>, used: nat): SlotBinding
  {
    if used >= |args| then NoBind
    else
      var a := args[used];
      if a.Null? then (if p.isOut then Bind(Null) else NoBind)
      else if p.isOut then NoBind
      else if ts.assignable(p.ty, a.ty) then Bind(a)
      else match TryConvert(ts, a, p.ty)
        case Some(converted) => Bind(converted)
        case None => NoBind
  }

  /** A complete parameter map: for each slot, the caller-argument index it
      is bound to (`None` for a slot filled from the service provider), the
      value passed in that slot, and how many arguments were consumed. */
  datatype ParamMap = ParamMap(mapping: seq<Option<nat>>, newArgs: seq<Value>, used: nat)

  /** The candidate either maps completely or is rejected; `Rejected(u)`
      carries the cursor value the method reports through `usedArguments`. */
  datatype MapOutcome = Mapped(pm: ParamMap) | Rejected(used: nat)

  /** One iteration of the slot loop. */
  function MapStep(ts: TypeSystem, provider: Resolver, p: Param, args: seq<Value>, st: ParamMap): MapOutcome
  {
    match BindSlot(ts, p, args, st.used)
    case Bind(v) => Mapped(ParamMap(st.mapping + [Some(st.used)], st.newArgs + [v], st.used + 1))
    case NoBind =>
      var service := Resolve(provider, p.ty);
      if service.Null? then Rejected(st.used)
      else Mapped(ParamMap(st.mapping + [None], st.newArgs + [service], st.used))
  }

  /** The state after the first `k` slots. */
  function MapPrefix(ts: TypeSystem, provider: Resolver, ps: seq<Param>, args: seq<Value>, k: nat): MapOutcome
    requires k <= |ps|
  {
    if k == 0 then Mapped(ParamMap([], [], 0))
    else match MapPrefix(ts, provider, ps, args, k - 1)
      case Rejected(u) => Rejected(u)
      case Mapped(st) => MapStep(ts, provider, ps[k - 1], args, st)
  }

  /** The specification of `CreateParameterMap`; `None` is a null parameter list. */
  function ParameterMap(ts: TypeSystem, provider: Resolver, parameters: Option<seq<Param>>, args: seq<Value>): MapOutcome
  {
    match parameters
    case None => Rejected(0)
    case Some(ps) => MapPrefix(ts, provider, ps, args, |ps|)
  }

  /** The number of slots bound to a caller argument. */
  function CountBound(m: seq<Option<nat>>): nat
  {
    if |m| == 0 then 0 else CountBound(m[..|m| - 1]) + (if m[|m| - 1].Some? then 1 else 0)
  }

  /** Slot `p`, examined with the cursor at `cursor`, ended with map entry `m`
      and value `v`: stated independently of `BindSlot`. A bound slot took
      exactly `args[cursor]`: a null one only into an out parameter, a
      non-null one never into an out parameter, verbatim when assignable and
      converted otherwise. An unbound slot could take nothing from
      `args[cursor]` and holds a non-null service of the parameter's type. */
  ghost predicate SlotAgrees(ts: TypeSystem, provider: Resolver, p: Param, args: seq<Value>,
                             cursor: nat, m: Option<nat>, v: Value)
  {
    match m
    case Some(j) =>
      && j == cursor && j < |args|
      && (args[j].Null? ==> p.isOut && v.Null?)
      && (args[j].Obj? ==>
            && !p.isOut
            && (ts.assignable(p.ty, args[j].ty) ==> v == args[j])
            && (!ts.assignable(p.ty, args[j].ty) ==> ts.convert(args[j], p.ty) == Some(v)))
    case None =>
      && v == Resolve(provider, p.ty) && v.Obj?
      && (cursor < |args| ==>
            && (args[cursor].Null? ==> !p.isOut)
            && (args[cursor].Obj? && !p.isOut ==>
                  !ts.assignable(p.ty, args[cursor].ty) && ts.convert(args[cursor], p.ty).None?))
  }

  lemma {:induction false} CountBoundAppend(m: seq<Option<nat>>, x: Option<nat>)
    ensures CountBound(m + [x]) == CountBound(m) + (if x.Some? then 1 else 0)
  {
    assert (m + [x])[..|m|] == m;
  }

  lemma {:induction false} CountBoundBounded(m: seq<Option<nat>>)
    ensures CountBound(m) <= |m|
  {
    if |m| > 0 { CountBoundBounded(m[..|m| - 1]); }
  }

  /** Counting bound slots is monotone along prefixes, strictly so past a bound slot. */
  lemma {:induction false} CountBoundPrefix(m: seq<Option<nat>>, i: nat, j: nat)
    requires i <= j <= |m|
    ensures CountBound(m[..i]) <= CountBound(m[..j])
    ensures i < j && m[i].Some? ==> CountBound(m[..i]) < CountBound(m[..j])
    decreases j - i
  {
    if i < j {
      CountBoundPrefix(m, i, j - 1);
      assert m[..j] == m[..j - 1] + [m[j - 1]];
      CountBoundAppend(m[..j - 1], m[j - 1]);
      if i == j - 1 { assert m[..i] == m[..j - 1]; }
    }
  }

  /** A rejection, once it happens, is final and keeps the cursor it had. */
  lemma {:induction false} RejectedSticks(ts: TypeSystem, provider: Resolver, ps: seq<Param>, args: seq<Value>, i: nat, k: nat)
    requires i <= k <= |ps|
    requires MapPrefix(ts, provider, ps, args, i).Rejected?
    ensures MapPrefix(ts, provider, ps, args, k) == MapPrefix(ts, provider, ps, args, i)
    decreases k - i
  {
    if i < k { RejectedSticks(ts, provider, ps, args, i, k - 1); }
  }

  /** The shape of a complete map and the meaning of each slot: the map and
      the argument list have one entry per slot, the cursor counts the bound
      slots and never passes the number of slots or of arguments, and every
      slot agrees with `SlotAgrees` at the cursor value it was examined with. */
  lemma {:induction false} MappedShape(ts: TypeSystem, provider: Resolver, ps: seq<Param>, args: seq<Value>, k: nat)
    requires k <= |ps|
    requires MapPrefix(ts, provider, ps, args, k).Mapped?
    ensures var pm := MapPrefix(ts, provider, ps, args, k).pm;
      && |pm.mapping| == k && |pm.newArgs| == k
      && pm.used == CountBound(pm.mapping)
      && pm.used <= k && pm.used <= |args|
      && forall i :: 0 <= i < k ==>
           SlotAgrees(ts, provider, ps[i], args, CountBound(pm.mapping[..i]), pm.mapping[i], pm.newArgs[i])
  {
    if k > 0 {
      MappedShape(ts, provider, ps, args, k - 1);
      var st := MapPrefix(ts, provider, ps, args, k - 1).pm;
      var pm := MapPrefix(ts, provider, ps, args, k).pm;
      var p := ps[k - 1];
      var b := BindSlot(ts, p, args, st.used);
      var x := if b.Bind? then Some(st.used) else None;
      assert pm.mapping == st.mapping + [x];
      CountBoundAppend(st.mapping, x);
      assert pm.mapping[..k - 1] == st.mapping;
      forall i | 0 <= i < k - 1
        ensures SlotAgrees(ts, provider, ps[i], args, CountBound(pm.mapping[..i]), pm.mapping[i], pm.newArgs[i])
      {
        assert pm.mapping[..i] == st.mapping[..i];
        assert pm.mapping[i] == st.mapping[i] && pm.newArgs[i] == st.newArgs[i];
      }
      assert SlotAgrees(ts, provider, p, args, st.used, pm.mapping[k - 1], pm.newArgs[k - 1]);
    }
  }

  /** Bound slots are numbered 0, 1, ..., used-1 in increasing slot order:
      their cursor values strictly increase, all lie below `used`, and there
      are exactly `used` of them. */
  lemma BoundIndicesIncrease(ts: TypeSystem, provider: Resolver, ps: seq<Param>, args: seq<Value>)
    requires ParameterMap(ts, provider, Some(ps), args).Mapped?
    ensures var pm := ParameterMap(ts, provider, Some(ps), args).pm;
      && CountBound(pm.mapping) == pm.used
      && pm.used <= |ps| && pm.used <= |args|
      && (forall i :: 0 <= i < |pm.mapping| && pm.mapping[i].Some? ==> pm.mapping[i].value < pm.used)
      && (forall i, j :: 0 <= i < j < |pm.mapping| && pm.mapping[i].Some? && pm.mapping[j].Some? ==>
            pm.mapping[i].value < pm.mapping[j].value)
  {
    var pm := ParameterMap(ts, provider, Some(ps), args).pm;
    MappedShape(ts, provider, ps, args, |ps|);
    assert pm.mapping[..|pm.mapping|] == pm.mapping;
    forall i | 0 <= i < |pm.mapping| && pm.mapping[i].Some?
      ensures pm.mapping[i].value < pm.used
    {
      assert SlotAgrees(ts, provider, ps[i], args, CountBound(pm.mapping[..i]), pm.mapping[i], pm.newArgs[i]);
      CountBoundPrefix(pm.mapping, i, |pm.mapping|);
    }
    forall i, j | 0 <= i < j < |pm.mapping| && pm.mapping[i].Some? && pm.mapping[j].Some?
      ensures pm.mapping[i].value < pm.mapping[j].value
    {
      assert SlotAgrees(ts, provider, ps[i], args, CountBound(pm.mapping[..i]), pm.mapping[i], pm.newArgs[i]);
      assert SlotAgrees(ts, provider, ps[j], args, CountBound(pm.mapping[..j]), pm.mapping[j], pm.newArgs[j]);
      CountBoundPrefix(pm.mapping, i, j);
    }
  }

  /** A null parameter list is rejected with cursor 0; an empty one maps to
      empty arrays with cursor 0. */
  lemma TrivialParameterLists(ts: TypeSystem, provider: Resolver, args: seq<Value>)
    ensures ParameterMap(ts, provider, None, args) == Rejected(0)
    ensures ParameterMap(ts, provider, Some([]), args) == Mapped(ParamMap([], [], 0))
  {
  }

  /** A candidate is rejected only when some slot's type has no service: the
      provider is null or returns null for it. */
  lemma {:induction false} RejectedNeedsMissingService(ts: TypeSystem, provider: Resolver, ps: seq<Param>, args: seq<Value>, k: nat)
    requires k <= |ps|
    requires MapPrefix(ts, provider, ps, args, k).Rejected?
    ensures exists i :: 0 <= i < k && Resolve(provider, ps[i].ty).Null?
  {
    if MapPrefix(ts, provider, ps, args, k - 1).Rejected? {
      RejectedNeedsMissingService(ts, provider, ps, args, k - 1);
    } else {
      assert Resolve(provider, ps[k - 1].ty).Null?;
    }
  }

  /** Conversely, a candidate whose every slot type has a service always maps. */
  lemma {:induction false} ServicesAvailableMeansMapped(ts: TypeSystem, provider: Resolver, ps: seq<Param>, args: seq<Value>, k: nat)
    requires k <= |ps|
    requires forall i :: 0 <= i < k ==> Resolve(provider, ps[i].ty).Obj?
    ensures MapPrefix(ts, provider, ps, args, k).Mapped?
  {
    if k > 0 { ServicesAvailableMeansMapped(ts, provider, ps, args, k - 1); }
  }

  /** With a null provider a candidate maps only if every slot binds to a
      caller argument, so the cursor ends at the number of slots. */
  lemma {:induction false} NullProviderBindsEverySlot(ts: TypeSystem, ps: seq<Param>, args: seq<Value>, k: nat)
    requires k <= |ps|
    requires MapPrefix(ts, None, ps, args, k).Mapped?
    ensures var pm := MapPrefix(ts, None, ps, args, k).pm;
      pm.used == k && |pm.mapping| == k && forall i :: 0 <= i < k ==> pm.mapping[i] == Some(i)
  {
    if k > 0 {
      NullProviderBindsEverySlot(ts, ps, args, k - 1);
      var st := MapPrefix(ts, None, ps, args, k - 1).pm;
      var pm := MapPrefix(ts, None, ps, args, k).pm;
      assert BindSlot(ts, ps[k - 1], args, st.used).Bind?;
      assert pm.mapping == st.mapping + [Some(k - 1)];
    }
  }

  /** The argument scan of `CreateParameterMap` (lines 76-115) for one
      parameter, from the cursor. Every path through the scan breaks in its
      first iteration, so only the argument at the cursor is examined. A slot
      left unbound keeps the null its pooled array starts with. */
  method ScanArguments(ts: TypeSystem, p: Param, arguments: array<Value>, cursor: nat) returns (found: bool, value: Value)
    ensures found <==> BindSlot(ts, p, arguments[..], cursor).Bind?
    ensures found ==> BindSlot(ts, p, arguments[..], cursor) == Bind(value)
    ensures !found ==> value == Null
  {
    found, value := false, Null;
    if cursor < arguments.Length {
      var a := arguments[cursor];
      if a.Null? {
        if p.isOut {
          found := true;
        }
      } else if !p.isOut {
        if !ts.assignable(p.ty, a.ty) {
          var converted := TryConvert(ts, a, p.ty);
          if converted.Some? {
            found := true;
            value := converted.value;
          }
        } else {
          found := true;
          value := a;
        }
      }
    }
  }

  /** `CreateParameterMap` (lines 46-133). Null and empty parameter lists are
      handled first; otherwise each slot binds the argument at the cursor
      (verbatim or converted) or is filled from the provider, and a slot with
      neither rejects the candidate with null arrays. Pooled arrays are fresh
      default-filled arrays here. */
  method CreateParameterMap(ts: TypeSystem, provider: Resolver, parameters: Option<seq<Param>>, arguments: array<Value>)
    returns (ok: bool, mapping: array?<Option<nat>>, newArgs: array?<Value>, usedArguments: nat)
    ensures ok <==> ParameterMap(ts, provider, parameters, arguments[..]).Mapped?
    ensures ok ==> var pm := ParameterMap(ts, provider, parameters, arguments[..]).pm;
      && mapping != null && newArgs != null && fresh(mapping) && fresh(newArgs)
      && mapping[..] == pm.mapping && newArgs[..] == pm.newArgs && usedArguments == pm.used
    ensures !ok ==>
      && mapping == null && newArgs == null
      && usedArguments == ParameterMap(ts, provider, parameters, arguments[..]).used
  {
    mapping, newArgs, usedArguments := null, null, 0;
    if parameters.None? {
      return false, mapping, newArgs, usedArguments;
    }
    var ps := parameters.value;
    if |ps| == 0 {
      mapping := new Option<nat>[0];
      newArgs := new Value[0];
      return true, mapping, newArgs, usedArguments;
    }
    var m := new Option<nat>[|ps|](_ => None);
    var na := new Value[|ps|](_ => Null);
    ghost var args := arguments[..];
    for i := 0 to |ps|
      invariant MapPrefix(ts, provider, ps, args, i) == Mapped(ParamMap(m[..i], na[..i], usedArguments))
    {
      var p := ps[i];
      var pt := p.ty;  // the parameter type with its by-ref wrapper stripped
      ghost var before := ParamMap(m[..i], na[..i], usedArguments);
      var found, value := ScanArguments(ts, p, arguments, usedArguments);
      var slot: Option<nat> := None;
      if found {
        slot := Some(usedArguments);
        usedArguments := usedArguments + 1;
      }
      if !found {
        var service := Resolve(provider, pt);
        if service.Null? {
          assert MapPrefix(ts, provider, ps, args, i + 1) == Rejected(usedArguments);
          RejectedSticks(ts, provider, ps, args, i + 1, |ps|);
          return false, null, null, usedArguments;
        }
        value := service;
      }
      assert MapStep(ts, provider, p, args, before) == Mapped(ParamMap(before.mapping + [slot], before.newArgs + [value], usedArguments));
      m[i] := slot;
      na[i] := value;
      assert m[..i + 1] == before.mapping + [slot];
      assert na[..i + 1] == before.newArgs + [value];
    }
    assert m[..] == m[..|ps|] && na[..] == na[..|ps|];
    return true, m, na, usedArguments;
  }

  // ---------------------------------------------------------------------------
  // Choosing a candidate (FindBestMethod)
  // ---------------------------------------------------------------------------

  predicate Maps(ts: TypeSystem, provider: Resolver, m: MethodRef, args: seq<Value>)
  {
    ParameterMap(ts, provider, Some(m.params), args).Mapped?
  }

  /** The number of arguments a candidate consumes, or -1 when it is rejected. */
  function UsedBy(ts: TypeSystem, provider: Resolver, m: MethodRef, args: seq<Value>): int
  {
    match ParameterMap(ts, provider, Some(m.params), args)
    case Mapped(pm) => pm.used
    case Rejected(_) => -1
  }

  /** The candidate `FindBestMethod` returns as written: because the running
      best count is never updated from -1, every candidate that maps replaces
      the previous one, so the last candidate that maps wins. */
  function LastMapped(ts: TypeSystem, provider: Resolver, methods: seq<MethodRef>, args: seq<Value>): (r: Option<nat>)
    ensures r.None? <==> forall j :: 0 <= j < |methods| ==> !Maps(ts, provider, methods[j], args)
    ensures r.Some? ==>
      && r.value < |methods| && Maps(ts, provider, methods[r.value], args)
      && forall j :: r.value < j < |methods| ==> !Maps(ts, provider, methods[j], args)
    decreases |methods|
  {
    if |methods| == 0 then None
    else if Maps(ts, provider, methods[|methods| - 1], args) then Some(|methods| - 1)
    else LastMapped(ts, provider, methods[..|methods| - 1], args)
  }

  /** The candidate the selection evidently intends: the one that consumes the
      most arguments, the first of them on a tie. */
  function BestMapped(ts: TypeSystem, provider: Resolver, methods: seq<MethodRef>, args: seq<Value>): (r: Option<nat>)
    ensures r.None? <==> forall j :: 0 <= j < |methods| ==> !Maps(ts, provider, methods[j], args)
    ensures r.Some? ==>
      && r.value < |methods| && Maps(ts, provider, methods[r.value], args)
      && forall j :: 0 <= j < |methods| && Maps(ts, provider, methods[j], args) ==>
           && UsedBy(ts, provider, methods[j], args) <= UsedBy(ts, provider, methods[r.value], args)
           && (j < r.value ==> UsedBy(ts, provider, methods[j], args) < UsedBy(ts, provider, methods[r.value], args))
    decreases |methods|
  {
    if |methods| == 0 then None
    else
      var k := |methods| - 1;
      var before := BestMapped(ts, provider, methods[..k], args);
      assert forall j :: 0 <= j < k ==> methods[..k][j] == methods[j];
      if Maps(ts, provider, methods[k], args)
         && (before.None? || UsedBy(ts, provider, methods[k], args) > UsedBy(ts, provider, methods[before.value], args))
      then Some(k)
      else before
  }

  /** `FindBestMethod` as written (lines 217-261): the candidate returned, with
      its parameters, map and arguments, is the last one that maps. */
  method FindBestMethod(ts: TypeSystem, provider: Resolver, methods: seq<MethodRef>, arguments: array<Value>)
    returns (best: Option<MethodRef>, newArgs: array?<Value>, mapping: array?<Option<nat>>, parameters: Option<seq<Param>>)
    ensures match LastMapped(ts, provider, methods, arguments[..])
      case None => best.None? && newArgs == null && mapping == null && parameters.None?
      case Some(k) =>
        var pm := ParameterMap(ts, provider, Some(methods[k].params), arguments[..]).pm;
        && best == Some(methods[k]) && parameters == Some(methods[k].params)
        && newArgs != null && mapping != null && fresh(newArgs) && fresh(mapping)
        && newArgs[..] == pm.newArgs && mapping[..] == pm.mapping
  {
    best, newArgs, mapping, parameters := None, null, null, None;
    var usedArguments: int := -1;
    var count := |methods|;
    ghost var bestIndex: Option<nat> := None;
    for i := 0 to count
      invariant bestIndex == LastMapped(ts, provider, methods[..i], arguments[..])
      invariant bestIndex.None? ==> best.None? && newArgs == null && mapping == null && parameters.None?
      invariant bestIndex.Some? ==> var k := bestIndex.value;
        var pm := ParameterMap(ts, provider, Some(methods[k].params), arguments[..]).pm;
        && k < i && best == Some(methods[k]) && parameters == Some(methods[k].params)
        && newArgs != null && mapping != null && fresh(newArgs) && fresh(mapping)
        && newArgs[..] == pm.newArgs && mapping[..] == pm.mapping
    {
      assert methods[..i + 1][..i] == methods[..i];
      var candidate := methods[i];
      var param := candidate.params;
      var ok, pMap, pArgs, usedArgs := CreateParameterMap(ts, provider, Some(param), arguments);
      if !ok {
        continue;
      }
      // usedArguments stays -1, so this test always succeeds.
      if usedArgs > usedArguments {
        best, parameters, newArgs, mapping := Some(candidate), Some(param), pArgs, pMap;
        bestIndex := Some(i);
      }
    }
    assert methods[..count] == methods;
  }

  /** `FindBestMethod` with the running best count updated, as evidently
      intended: it returns the candidate `BestMapped` names. */
  method FindBestMethodCorrected(ts: TypeSystem, provider: Resolver, methods: seq<MethodRef>, arguments: array<Value>)
    returns (best: Option<MethodRef>, newArgs: array?<Value>, mapping: array?<Option<nat>>, parameters: Option<seq<Param>>)
    ensures match BestMapped(ts, provider, methods, arguments[..])
      case None => best.None? && newArgs == null && mapping == null && parameters.None?
      case Some(k) =>
        var pm := ParameterMap(ts, provider, Some(methods[k].params), arguments[..]).pm;
        && best == Some(methods[k]) && parameters == Some(methods[k].params)
        && newArgs != null && mapping != null && fresh(newArgs) && fresh(mapping)
        && newArgs[..] == pm.newArgs && mapping[..] == pm.mapping
  {
    best, newArgs, mapping, parameters := None, null, null, None;
    var usedArguments: int := -1;
    var count := |methods|;
    ghost var bestIndex: Option<nat> := None;
    for i := 0 to count
      invariant bestIndex == BestMapped(ts, provider, methods[..i], arguments[..])
      invariant bestIndex.None? ==> best.None? && newArgs == null && mapping == null && parameters.None? && usedArguments == -1
      invariant bestIndex.Some? ==> var k := bestIndex.value;
        var pm := ParameterMap(ts, provider, Some(methods[k].params), arguments[..]).pm;
        && k < i && best == Some(methods[k]) && parameters == Some(methods[k].params)
        && usedArguments == UsedBy(ts, provider, methods[k], arguments[..])
        && newArgs != null && mapping != null && fresh(newArgs) && fresh(mapping)
        && newArgs[..] == pm.newArgs && mapping[..] == pm.mapping
    {
      assert methods[..i + 1][..i] == methods[..i];
      var candidate := methods[i];
      var param := candidate.params;
      var ok, pMap, pArgs, usedArgs := CreateParameterMap(ts, provider, Some(param), arguments);
      if !ok {
        continue;
      }
      if usedArgs > usedArguments {
        best, parameters, newArgs, mapping := Some(candidate), Some(param), pArgs, pMap;
        usedArguments := usedArgs;
        bestIndex := Some(i);
      }
    }
    assert methods[..count] == methods;
  }

  /** A type system where only identical types are assignable and nothing converts. */
  function ExactTypes(): TypeSystem
  {
    TypeSystem((t: TypeId, s: TypeId) => t == s, (v: Value, t: TypeId) => None,
               (t: TypeId) => TypeInfo("", "", false, false, false, [], [], None, None),
               (t: TypeId) => t,
               (t: TypeId) => Null, 1, 2)
  }

  /** Two overloads of a hook, `OnChat(string, string)` declared before
      `OnChat(string)`, called with two strings and no provider: the as-written
      selection picks the overload that binds one argument, the intended one picks
      the overload that binds both. */
  lemma LastMappedIgnoresArgumentCount()
    ensures var text := Param("text", 0, false, false, false, None);
      var twoArgs := MethodRef(0, "OnChat", 5, false, [text, text]);
      var oneArg := MethodRef(1, "OnChat", 5, false, [text]);
      var args := [Obj(0, 10), Obj(0, 11)];
      && UsedBy(ExactTypes(), None, twoArgs, args) == 2
      && UsedBy(ExactTypes(), None, oneArg, args) == 1
      && LastMapped(ExactTypes(), None, [twoArgs, oneArg], args) == Some(1)
      && BestMapped(ExactTypes(), None, [twoArgs, oneArg], args) == Some(0)
  {
    var text := Param("text", 0, false, false, false, None);
    var twoArgs := MethodRef(0, "OnChat", 5, false, [text, text]);
    var oneArg := MethodRef(1, "OnChat", 5, false, [text]);
    var args := [Obj(0, 10), Obj(0, 11)];
    var ts := ExactTypes();
    assert MapPrefix(ts, None, [text], args, 1) == Mapped(ParamMap([Some(0)], [Obj(0, 10)], 1));
    assert MapPrefix(ts, None, [text, text], args, 1) == Mapped(ParamMap([Some(0)], [Obj(0, 10)], 1));
    assert MapPrefix(ts, None, [text, text], args, 2) == Mapped(ParamMap([Some(0), Some(1)], [Obj(0, 10), Obj(0, 11)], 2));
    assert [twoArgs, oneArg][..1] == [twoArgs];
    assert [twoArgs, oneArg][..1][..0] == [];
  }

  // ---------------------------------------------------------------------------
  // Invocation and by-ref write-back (ExecuteMethod, ProcessByRefs)
  // ---------------------------------------------------------------------------

  /** The argument array after reflection's `Invoke`: by-ref slots hold what
      the call left in them, every other slot is unchanged. */
  function AfterInvoke(params: seq<Param>, before: seq<Value>, after: seq<Value>): (r: seq<Value>)
    ensures |r| == |before|
    ensures forall i :: 0 <= i < |r| ==>
      r[i] == (if i < |params| && params[i].isByRef && i < |after| then after[i] else before[i])
  {
    seq(|before|, i requires 0 <= i < |before| =>
      if i < |params| && params[i].isByRef && i < |after| then after[i] else before[i])
  }

  /** `ExecuteMethod` (lines 16-44) with `Invoke` and the awaiting of a
      returned task as the abstract `call`: an exception from the call
      propagates, otherwise the call's value is returned and its by-ref
      results are in `arguments`. */
  method ExecuteMethod(call: Invoker, m: MethodRef, arguments: array<Value>, instance: Value) returns (r: Result<Value>)
    modifies arguments
    ensures call(m, instance, old(arguments[..])).Failure? ==>
      r == Failure(call(m, instance, old(arguments[..])).error) && arguments[..] == old(arguments[..])
    ensures call(m, instance, old(arguments[..])).Success? ==>
      var inv := call(m, instance, old(arguments[..])).value;
      r == Success(inv.value) && arguments[..] == AfterInvoke(m.params, old(arguments[..]), inv.argsAfter)
  {
    var outcome := call(m, instance, arguments[..]);
    if outcome.Failure? {
      return Failure(outcome.error);
    }
    var after := outcome.value.argsAfter;
    forall i | 0 <= i < arguments.Length && i < |m.params| && m.params[i].isByRef && i < |after| {
      arguments[i] := after[i];
    }
    r := Success(outcome.value.value);
  }

  /** Slot `i` is copied back: it is mapped to a caller argument and its
      parameter is out or by-ref. */
  predicate WritesBack(parameters: seq<Param>, mapping: seq<Option<nat>>, i: int)
  {
    0 <= i < |mapping| && mapping[i].Some? && i < |parameters| && (parameters[i].isOut || parameters[i].isByRef)
  }

  /** Every index `ProcessByRefs` reads or writes is inside its array. */
  predicate IndicesValid(parameters: seq<Param>, argsLength: nat, originalLength: nat, mapping: seq<Option<nat>>)
  {
    forall i :: 0 <= i < |mapping| && WritesBack(parameters, mapping, i) ==>
      mapping[i].value < originalLength && i < argsLength
  }

  /** The value copied back over `originalValue`: the produced value, unless
      the original is non-null, the produced value is not an instance of the
      original's type and converting it to that type succeeds. */
  function WriteBackValue(ts: TypeSystem, originalValue: Value, produced: Value): Value
  {
    if originalValue.Obj? && !IsInstanceOf(ts, originalValue.ty, produced)
       && TryConvert(ts, produced, originalValue.ty).Some?
    then TryConvert(ts, produced, originalValue.ty).value
    else produced
  }

  /** The caller's array after the first `k` slots were processed. */
  function ByRefs(ts: TypeSystem, parameters: seq<Param>, args: seq<Value>, original: seq<Value>,
                  mapping: seq<Option<nat>>, k: nat): (r: seq<Value>)
    requires k <= |mapping|
    requires IndicesValid(parameters, |args|, |original|, mapping)
    ensures |r| == |original|
  {
    if k == 0 then original
    else
      var o := ByRefs(ts, parameters, args, original, mapping, k - 1);
      var i := k - 1;
      if WritesBack(parameters, mapping, i)
      then o[mapping[i].value := WriteBackValue(ts, o[mapping[i].value], args[i])]
      else o
  }

  /** `ProcessByRefs` (lines 135-183). The search for the parameter whose
      `Position` is `i` finds `parameters[i]` when there is one. */
  method ProcessByRefs(ts: TypeSystem, parameters: seq<Param>, args: seq<Value>, original: array<Value>, mapping: seq<Option<nat>>)
    requires IndicesValid(parameters, |args|, original.Length, mapping)
    modifies original
    ensures original[..] == ByRefs(ts, parameters, args, old(original[..]), mapping, |mapping|)
  {
    for i := 0 to |mapping|
      invariant original[..] == ByRefs(ts, parameters, args, old(original[..]), mapping, i)
    {
      if mapping[i].None? {
        continue;
      }
      if i >= |parameters| {
        continue;
      }
      var p := parameters[i];
      if p.isOut || p.isByRef {
        assert WritesBack(parameters, mapping, i);
        var index := mapping[i].value;
        var originalValue := original[index];
        if originalValue.Obj? {
          var oT := originalValue.ty;
          if !IsInstanceOf(ts, oT, args[i]) {
            var converted := TryConvert(ts, args[i], oT);
            if converted.Some? {
              original[index] := converted.value;
              continue;
            }
          }
        }
        original[index] := args[i];
      }
    }
  }

  /** Only caller slots named by a written-back map entry change. */
  lemma {:induction false} ByRefsFrame(ts: TypeSystem, parameters: seq<Param>, args: seq<Value>, original: seq<Value>,
                                       mapping: seq<Option<nat>>, k: nat, index: nat)
    requires k <= |mapping|
    requires IndicesValid(parameters, |args|, |original|, mapping)
    requires index < |original|
    requires forall i :: 0 <= i < k && WritesBack(parameters, mapping, i) ==> mapping[i].value != index
    ensures ByRefs(ts, parameters, args, original, mapping, k)[index] == original[index]
  {
    if k > 0 { ByRefsFrame(ts, parameters, args, original, mapping, k - 1, index); }
  }

  /** When no two written-back slots share a caller index, each such index
      receives `WriteBackValue` of its original value and the slot's value. */
  lemma {:induction false} ByRefsWritten(ts: TypeSystem, parameters: seq<Param>, args: seq<Value>, original: seq<Value>,
                                         mapping: seq<Option<nat>>, k: nat, i: nat)
    requires i < k <= |mapping|
    requires IndicesValid(parameters, |args|, |original|, mapping)
    requires WritesBack(parameters, mapping, i)
    requires forall j :: 0 <= j < k && j != i && WritesBack(parameters, mapping, j) ==> mapping[j].value != mapping[i].value
    ensures ByRefs(ts, parameters, args, original, mapping, k)[mapping[i].value]
            == WriteBackValue(ts, original[mapping[i].value], args[i])
  {
    if i < k - 1 {
      ByRefsWritten(ts, parameters, args, original, mapping, k - 1, i);
    } else {
      ByRefsFrame(ts, parameters, args, original, mapping, k - 1, mapping[i].value);
    }
  }

  /** The caller's array after a successful map and call: an index bound to an
      out or by-ref slot receives that slot's write-back value, and every
      other index keeps its value. An out slot whose caller argument was null
      always receives exactly the value the call produced. */
  lemma WriteBackAfterMapping(ts: TypeSystem, provider: Resolver, ps: seq<Param>, args: seq<Value>, produced: seq<Value>)
    requires ParameterMap(ts, provider, Some(ps), args).Mapped?
    requires |produced| == |ps|
    ensures var pm := ParameterMap(ts, provider, Some(ps), args).pm;
      IndicesValid(ps, |produced|, |args|, pm.mapping)
      && var r := ByRefs(ts, ps, produced, args, pm.mapping, |pm.mapping|);
      && |r| == |args|
      && (forall i :: WritesBack(ps, pm.mapping, i) ==>
            r[pm.mapping[i].value] == WriteBackValue(ts, args[pm.mapping[i].value], produced[i]))
      && (forall i :: WritesBack(ps, pm.mapping, i) && args[pm.mapping[i].value].Null? ==>
            r[pm.mapping[i].value] == produced[i])
      && (forall index :: 0 <= index < |args| && (forall i :: WritesBack(ps, pm.mapping, i) ==> pm.mapping[i].value != index) ==>
            r[index] == args[index])
  {
    var pm := ParameterMap(ts, provider, Some(ps), args).pm;
    BoundIndicesIncrease(ts, provider, ps, args);
    MappedShape(ts, provider, ps, args, |ps|);
    var r := ByRefs(ts, ps, produced, args, pm.mapping, |pm.mapping|);
    forall i | WritesBack(ps, pm.mapping, i)
      ensures r[pm.mapping[i].value] == WriteBackValue(ts, args[pm.mapping[i].value], produced[i])
    {
      forall j | 0 <= j < |pm.mapping| && j != i && WritesBack(ps, pm.mapping, j)
        ensures pm.mapping[j].value != pm.mapping[i].value
      {
        if j < i {
          assert pm.mapping[j].value < pm.mapping[i].value;
        } else {
          assert pm.mapping[i].value < pm.mapping[j].value;
        }
      }
      ByRefsWritten(ts, ps, produced, args, pm.mapping, |pm.mapping|, i);
    }
    forall index | 0 <= index < |args| && (forall i :: WritesBack(ps, pm.mapping, i) ==> pm.mapping[i].value != index)
      ensures r[index] == args[index]
    {
      ByRefsFrame(ts, ps, produced, args, pm.mapping, |pm.mapping|, index);
    }
  }
}
