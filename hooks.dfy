/**
 The hook registry of src/index.ts: a table from hook name to the ordered list
 of callbacks registered under it, changed in place by `on` and `unsubscribe`,
 and dispatched in registration order by `exec` and `execAsync`.

 Hook names and callbacks are opaque values with equality; equality on `Cb`
 stands for JavaScript identity (`===`), which is what `indexOf` compares with.
 A callback is not run: dispatch is recorded as the trace of invocations it
 makes, each with the caller's context and arguments passed through unchanged.
 */
module HookRegistry {
  import opened ArrayOps

  /** One call of a registered callback with the context and arguments of the dispatch. */
  datatype Invocation<Cb, Ctx, Args> = Invocation(callback: Cb, context: Ctx, args: Args)

  /** What `execAsync` collects per callback: `Promise.resolve` of what that invocation returned. */
  datatype Promise<Cb, Ctx, Args> = ResolveOf(call: Invocation<Cb, Ctx, Args>)

  /** The list registered under `name`; an absent name has none. */
  function ListOf<Name, Cb>(table: map<Name, seq<Cb>>, name: Name): seq<Cb>
  {
    if name in table then table[name] else []
  }

  /** The table after `on(name, cb)`: the list for `name` (created empty if absent) gets `cb` pushed. */
  function Appended<Name, Cb>(table: map<Name, seq<Cb>>, name: Name, cb: Cb): (r: map<Name, seq<Cb>>)
    ensures r.Keys == table.Keys + {name}
    ensures name in r && r[name] == ListOf(table, name) + [cb]
    ensures forall k :: k in table && k != name ==> k in r && r[k] == table[k]
  {
    var existing := if name in table then table else table[name := []];
    existing[name := existing[name] + [cb]]
  }

  /**
   The table after `unsubscribe(name, cb)`: when the list for `name` is present
   and non-empty and holds `cb`, the entry at the first index holding `cb` is
   spliced out; the key stays, even when its list becomes empty.
   */
  function Unsubscribed<Name, Cb(==)>(table: map<Name, seq<Cb>>, name: Name, cb: Cb): (r: map<Name, seq<Cb>>)
    ensures r.Keys == table.Keys
    ensures forall k :: k in table && k != name ==> r[k] == table[k]
  {
    if name in table && |table[name]| > 0 then
      var callbackIndex := IndexOf(table[name], cb);
      if callbackIndex > -1 then table[name := Splice(table[name], callbackIndex)] else table
    else
      table
  }

  /** The invocations a dispatch over `callbacks` makes, one per entry, in list order. */
  function Dispatch<Cb, Ctx, Args>(callbacks: seq<Cb>, context: Ctx, args: Args): (calls: seq<Invocation<Cb, Ctx, Args>>)
    ensures |calls| == |callbacks|
    ensures forall i :: 0 <= i < |calls| ==> calls[i] == Invocation(callbacks[i], context, args)
  {
    if callbacks == [] then []
    else [Invocation(callbacks[0], context, args)] + Dispatch(callbacks[1..], context, args)
  }

  /** The table after `on(name, cbs[0])`, `on(name, cbs[1])`, ... in that order. */
  function Registered<Name, Cb>(table: map<Name, seq<Cb>>, name: Name, cbs: seq<Cb>): map<Name, seq<Cb>>
    decreases |cbs|
  {
    if cbs == [] then table else Registered(Appended(table, name, cbs[0]), name, cbs[1..])
  }

  class Hooks<Name(==), Cb(==)> {
    /** The `_hooks` Map: hook name to callbacks in registration order. */
    var hooks: map<Name, seq<Cb>>

    constructor ()
      ensures hooks == map[]
    {
      hooks := map[];
    }

    /** Registers `cb` under `name`, after every callback already there. */
    method On(name: Name, cb: Cb)
      modifies this
      ensures hooks == Appended(old(hooks), name, cb)
      ensures name in hooks && hooks[name] == ListOf(old(hooks), name) + [cb]
    {
      if name !in hooks {
        hooks := hooks[name := []];
      }
      hooks := hooks[name := hooks[name] + [cb]];
    }

    /** Removes the first registration of `cb` under `name`, if there is one; returns nothing. */
    method Unsubscribe(name: Name, cb: Cb)
      modifies this
      ensures hooks == Unsubscribed(old(hooks), name, cb)
    {
      if name in hooks {
        var hookList := hooks[name];
        if |hookList| > 0 {
          var callbackIndex := IndexOf(hookList, cb);
          if callbackIndex > -1 {
            hooks := hooks[name := Splice(hookList, callbackIndex)];
          }
        }
      }
    }

    /** Calls every callback registered under `name`, in list order; nothing when `name` is absent. */
    method Exec<Ctx, Args>(name: Name, context: Ctx, args: Args) returns (trace: seq<Invocation<Cb, Ctx, Args>>)
      ensures trace == Dispatch(ListOf(hooks, name), context, args)
      ensures name !in hooks ==> trace == []
    {
      trace := [];
      if name in hooks {
        var hookCallbacks := hooks[name];
        for i := 0 to |hookCallbacks|
          invariant trace == Dispatch(hookCallbacks[..i], context, args)
        {
          assert hookCallbacks[..i + 1] == hookCallbacks[..i] + [hookCallbacks[i]];
          DispatchAppend(hookCallbacks[..i], [hookCallbacks[i]], context, args);
          trace := trace + [Invocation(hookCallbacks[i], context, args)];
        }
        assert hookCallbacks[..|hookCallbacks|] == hookCallbacks;
      }
    }

    /** One pending result per callback registered under `name`, in list order; none when `name` is absent. */
    method ExecAsync<Ctx, Args>(name: Name, context: Ctx, args: Args) returns (promises: seq<Promise<Cb, Ctx, Args>>)
      ensures |promises| == |ListOf(hooks, name)|
      ensures forall i :: 0 <= i < |promises| ==>
                promises[i] == ResolveOf(Dispatch(ListOf(hooks, name), context, args)[i])
    {
      promises := [];
      if name in hooks {
        var hookCallbacks := hooks[name];
        for i := 0 to |hookCallbacks|
          invariant |promises| == i
          invariant forall j :: 0 <= j < i ==> promises[j] == ResolveOf(Invocation(hookCallbacks[j], context, args))
        {
          promises := promises + [ResolveOf(Invocation(hookCallbacks[i], context, args))];
        }
      }
    }

    /** The table itself, for introspection. */
    method GetHooks() returns (table: map<Name, seq<Cb>>)
      ensures table == hooks
    {
      table := hooks;
    }
  }

  /** Dispatching over two lists one after the other is dispatching over their concatenation. */
  lemma DispatchAppend<Cb, Ctx, Args>(a: seq<Cb>, b: seq<Cb>, context: Ctx, args: Args)
    ensures Dispatch(a + b, context, args) == Dispatch(a, context, args) + Dispatch(b, context, args)
  {
  }

  /** `on` twice with the same callback registers it twice, as two entries at the end. */
  lemma OnTwiceDuplicates<Name, Cb>(table: map<Name, seq<Cb>>, name: Name, cb: Cb)
    ensures ListOf(Appended(Appended(table, name, cb), name, cb), name) == ListOf(table, name) + [cb, cb]
    ensures multiset(ListOf(Appended(Appended(table, name, cb), name, cb), name))[cb]
            == multiset(ListOf(table, name))[cb] + 2
  {
  }

  /**
   When `cb` is registered under `name`, `unsubscribe` takes out exactly the
   entry at its first occurrence: the list shrinks by one, the entries before
   and after keep their order, and one copy of `cb` is gone.
   */
  lemma UnsubscribeRemovesFirst<Name, Cb>(table: map<Name, seq<Cb>>, name: Name, cb: Cb)
    requires cb in ListOf(table, name)
    ensures var s, r, i := ListOf(table, name), ListOf(Unsubscribed(table, name, cb), name), IndexOf(ListOf(table, name), cb);
      && |r| == |s| - 1
      && s[i] == cb && cb !in s[..i]
      && r == s[..i] + s[i + 1..]
      && multiset(r) == multiset(s) - multiset{cb}
  {
    var s, i := ListOf(table, name), IndexOf(ListOf(table, name), cb);
    var r := ListOf(Unsubscribed(table, name, cb), name);
    assert r == Splice(s, i);
    SpliceMultiset(s, i);
  }

  /** `unsubscribe` leaves the table unchanged exactly when `cb` is not registered under `name`. */
  lemma UnsubscribeNoOpIff<Name, Cb>(table: map<Name, seq<Cb>>, name: Name, cb: Cb)
    ensures Unsubscribed(table, name, cb) == table <==> cb !in ListOf(table, name)
  {
  }

  /** Unsubscribing the only callback of `name` leaves the key present with an empty list. */
  lemma UnsubscribeKeepsEmptyKey<Name, Cb>(table: map<Name, seq<Cb>>, name: Name, cb: Cb)
    requires ListOf(table, name) == [cb]
    ensures name in Unsubscribed(table, name, cb)
    ensures Unsubscribed(table, name, cb) == table[name := []]
  {
  }

  /**
   Round trip: registering a callback not yet under `name` and unsubscribing it
   again restores the list; the table itself is restored when `name` was
   present, and otherwise gains `name` with an empty list.
   */
  lemma OnThenUnsubscribe<Name, Cb>(table: map<Name, seq<Cb>>, name: Name, cb: Cb)
    requires cb !in ListOf(table, name)
    ensures ListOf(Unsubscribed(Appended(table, name, cb), name, cb), name) == ListOf(table, name)
    ensures Unsubscribed(Appended(table, name, cb), name, cb)
            == if name in table then table else table[name := []]
  {
  }

  /** Unsubscribing a callback that was registered earlier undoes a later `on` of the same callback only at the first entry. */
  lemma UnsubscribeAfterDuplicateOn<Name, Cb>(table: map<Name, seq<Cb>>, name: Name, cb: Cb)
    requires cb in ListOf(table, name)
    ensures cb in ListOf(Unsubscribed(Appended(table, name, cb), name, cb), name)
    ensures ListOf(Unsubscribed(Appended(table, name, cb), name, cb), name)
            == ListOf(Unsubscribed(table, name, cb), name) + [cb]
  {
    var s := ListOf(table, name);
    var i := IndexOf(s, cb);
    IndexOfAppended(s, cb);
    assert Splice(s + [cb], i) == Splice(s, i) + [cb];
  }

  /**
   Registering `cbs` one by one appends them, in order, to the list for `name`;
   `name` becomes a key as soon as one callback is registered, and every other
   key keeps its list.
   */
  lemma {:induction false} RegistrationOrder<Name, Cb>(table: map<Name, seq<Cb>>, name: Name, cbs: seq<Cb>)
    ensures ListOf(Registered(table, name, cbs), name) == ListOf(table, name) + cbs
    ensures Registered(table, name, cbs).Keys == if cbs == [] then table.Keys else table.Keys + {name}
    ensures forall k :: k in table && k != name ==> Registered(table, name, cbs)[k] == table[k]
    decreases |cbs|
  {
    if cbs != [] {
      var next := Appended(table, name, cbs[0]);
      RegistrationOrder(next, name, cbs[1..]);
      assert ListOf(table, name) + [cbs[0]] + cbs[1..] == ListOf(table, name) + cbs;
    }
  }

  /** On a fresh registry, dispatch after `on(name, cbs[0])`, `on(name, cbs[1])`, ... invokes exactly `cbs`, in that order. */
  lemma DispatchFollowsRegistration<Name, Cb, Ctx, Args>(name: Name, cbs: seq<Cb>, context: Ctx, args: Args)
    ensures var calls := Dispatch(ListOf(Registered(map[], name, cbs), name), context, args);
      |calls| == |cbs| && forall i :: 0 <= i < |cbs| ==> calls[i].callback == cbs[i]
  {
    RegistrationOrder(map[], name, cbs);
  }

  /** A client: two callbacks under "save", one unsubscribed between two dispatches, and nothing under "load". */
  method SaveAndLoadScenario(context: int)
  {
    var registry := new Hooks<string, int>();
    var cb1, cb2 := 1, 2;
    registry.On("save", cb1);
    registry.On("save", cb2);
    var first := registry.Exec("save", context, [42]);
    assert first == [Invocation(cb1, context, [42]), Invocation(cb2, context, [42])];
    registry.Unsubscribe("save", cb1);
    assert IndexOf([cb1, cb2], cb1) == 0;
    var second := registry.Exec("save", context, [7]);
    assert second == [Invocation(cb2, context, [7])];
    var noArgs: seq<int> := [];
    var load := registry.Exec("load", context, noArgs);
    assert load == [];
    registry.Unsubscribe("load", cb1);
    var table := registry.GetHooks();
    assert table.Keys == {"save"} && table["save"] == [cb2];
  }
}
