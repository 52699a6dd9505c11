/** `EventBus` of `rustmine_server/src/event/mod.rs`, run one listener at a
    time.  Rust's `TypeId` becomes a type tag `T` and `Box<dyn Any>` a value
    paired with its tag (`Boxed`); a listener's callback is a pure function.
    Lazy listeners are spawned and never awaited, so nothing they return is
    seen: the model runs only the awaited ones, in registration order. */
module EventBus {
  import opened Wrappers

  /** A value behind `Box<dyn Any>`: the tag of its type, and the value. */
  datatype Boxed<T, V> = Boxed(tag: T, value: V)

  /** One entry of a listener list: whether it was registered lazy, the
      event type it was registered for, the result type its callback
      returns, and the callback. */
  datatype Listener<T, !V> = Listener(lazy: bool, event: T, result: T, callback: V -> Option<V>)

  /** The listener lists, by event type. */
  type Bus<T(==, !new), !V> = map<T, seq<Listener<T, V>>>

  /** `EventBus::default`: no listeners at all. */
  function Empty<T(==, !new), V>(): (b: Bus<T, V>)
    ensures forall t :: t !in b
  {
    map[]
  }

  /** The listeners of one event type; a type nobody listens to has none. */
  function ListenersOf<T(==, !new), V>(bus: Bus<T, V>, t: T): seq<Listener<T, V>> {
    if t in bus then bus[t] else []
  }

  /** `EventBus::listen`: the listener goes at the end of its event type's
      list, which is created when missing. */
  function Listen<T(==, !new), V>(bus: Bus<T, V>, lazy: bool, event: T, result: T, callback: V -> Option<V>): (r: Bus<T, V>)
    ensures r.Keys == bus.Keys + {event}
    ensures ListenersOf(r, event) == ListenersOf(bus, event) + [Listener(lazy, event, result, callback)]
    ensures forall t :: t != event ==> ListenersOf(r, t) == ListenersOf(bus, t)
  {
    bus[event := ListenersOf(bus, event) + [Listener(lazy, event, result, callback)]]
  }

  /** The boxed closure `listen` stores: the event is downcast to the
      listener's own type, and the callback's answer is boxed with the
      listener's result type.  A failed downcast answers `None`. */
  function Handler<T(==, !new), V>(l: Listener<T, V>, e: Boxed<T, V>): (r: Option<Boxed<T, V>>)
    ensures e.tag != l.event ==> r == None
    ensures e.tag == l.event ==> (r.Some? <==> l.callback(e.value).Some?)
    ensures r.Some? ==> r.value == Boxed(l.result, l.callback(e.value).value)
  {
    if e.tag != l.event then None
    else
      match l.callback(e.value)
      case None => None
      case Some(v) => Some(Boxed(l.result, v))
  }

  /** The listeners `dispatch` pushes onto its task list: the ones not
      registered lazy, in order. */
  function Awaited<T, V>(ls: seq<Listener<T, V>>): (r: seq<Listener<T, V>>)
    ensures |r| <= |ls|
    ensures forall i :: 0 <= i < |r| ==> !r[i].lazy
  {
    if |ls| == 0 then []
    else Awaited(ls[..|ls| - 1]) + if ls[|ls| - 1].lazy then [] else [ls[|ls| - 1]]
  }

  /** What each awaited task answers. */
  function Outcomes<T(==, !new), V>(ls: seq<Listener<T, V>>, e: Boxed<T, V>): (r: seq<Option<Boxed<T, V>>>)
    ensures |r| == |ls|
  {
    seq(|ls|, i requires 0 <= i < |ls| => Handler(ls[i], e))
  }

  /** The value of the last answer whose type is `result`, if any. */
  function LastOfType<T(==, !new), V>(xs: seq<Option<Boxed<T, V>>>, result: T): (r: Option<V>)
    ensures r.None? <==> forall i :: 0 <= i < |xs| ==> !OfType(xs[i], result)
    ensures r.Some? ==> Some(Boxed(result, r.value)) in xs
    decreases |xs|
  {
    if |xs| == 0 then None
    else
      var x := xs[|xs| - 1];
      assert forall i :: 0 <= i < |xs| - 1 ==> xs[..|xs| - 1][i] == xs[i];
      if x.Some? && x.value.tag == result then Some(x.value.value) else LastOfType(xs[..|xs| - 1], result)
  }

  /** Whether an answer is a value of type `result`. */
  predicate OfType<T(==), V>(x: Option<Boxed<T, V>>, result: T) {
    x.Some? && x.value.tag == result
  }

  /** `LastOfType` is the last answer of the right type, and no answer
      after it has that type; it is `None` exactly when no answer does. */
  lemma {:induction false} LastOfTypeSpec<T(!new), V>(xs: seq<Option<Boxed<T, V>>>, result: T)
    ensures LastOfType(xs, result).None? <==> forall i :: 0 <= i < |xs| ==> !OfType(xs[i], result)
    ensures LastOfType(xs, result).Some? ==>
              exists i :: 0 <= i < |xs| && xs[i] == Some(Boxed(result, LastOfType(xs, result).value)) &&
                          forall j :: i < j < |xs| ==> !OfType(xs[j], result)
    decreases |xs|
  {
    if |xs| > 0 {
      var n := |xs| - 1;
      var front := xs[..n];
      if !OfType(xs[n], result) {
        assert LastOfType(xs, result) == LastOfType(front, result);
        LastOfTypeSpec(front, result);
        if LastOfType(front, result).Some? {
          var i :| 0 <= i < n && front[i] == Some(Boxed(result, LastOfType(front, result).value)) &&
                   forall j :: i < j < n ==> !OfType(front[j], result);
          assert xs[i] == front[i];
          forall j | i < j < |xs|
            ensures !OfType(xs[j], result)
          {
            if j < n {
              assert xs[j] == front[j];
            }
          }
        }
      }
    }
  }

  /** What `dispatch` returns for event `e` and result type `result`, as a
      function of the bus. */
  function Dispatched<T(==, !new), V>(bus: Bus<T, V>, e: Boxed<T, V>, result: T): (r: Option<V>)
    ensures r.None? <==> forall l :: l in Awaited(ListenersOf(bus, e.tag)) ==> !OfType(Handler(l, e), result)
    ensures r.Some? ==> exists l :: l in Awaited(ListenersOf(bus, e.tag)) && Handler(l, e) == Some(Boxed(result, r.value))
  {
    var ls := Awaited(ListenersOf(bus, e.tag));
    var xs := Outcomes(ls, e);
    assert forall l :: l in ls ==> exists i :: 0 <= i < |ls| && ls[i] == l && xs[i] == Handler(l, e);
    LastOfType(xs, result)
  }

  /** `EventBus::dispatch`: collect the tasks of the awaited listeners of
      the event's type, then await them in order, keeping the last answer
      of the right type. */
  method Dispatch<T(==, !new), V>(bus: Bus<T, V>, e: Boxed<T, V>, result: T) returns (last: Option<V>)
    ensures last == Dispatched(bus, e, result)
    ensures e.tag !in bus ==> last == None
  {
    var ls := ListenersOf(bus, e.tag);
    var tasks: seq<Listener<T, V>> := [];
    for i := 0 to |ls|
      invariant tasks == Awaited(ls[..i])
    {
      assert ls[..i + 1][..i] == ls[..i];
      if !ls[i].lazy {
        tasks := tasks + [ls[i]];
      }
    }
    assert ls[..|ls|] == ls;
    last := None;
    for i := 0 to |tasks|
      invariant last == LastOfType(Outcomes(tasks[..i], e), result)
    {
      var xs := Outcomes(tasks[..i + 1], e);
      assert xs[..i] == Outcomes(tasks[..i], e);
      var answer := Handler(tasks[i], e);
      assert xs[i] == answer;
      if answer.Some? && answer.value.tag == result {
        last := Some(answer.value.value);
      }
    }
    assert tasks[..|tasks|] == tasks;
  }

  /** Registering one more listener for the event's type adds its answer at
      the end, if it is awaited. */
  lemma {:induction false} DispatchAfterListen<T(!new), V>(bus: Bus<T, V>, lazy: bool, result: T, callback: V -> Option<V>,
                                                    e: Boxed<T, V>)
    ensures var l := Listener(lazy, e.tag, result, callback);
            var before := Outcomes(Awaited(ListenersOf(bus, e.tag)), e);
            Outcomes(Awaited(ListenersOf(Listen(bus, lazy, e.tag, result, callback), e.tag)), e)
            == before + if lazy then [] else [Handler(l, e)]
  {
    var ls := ListenersOf(bus, e.tag);
    var l := Listener(lazy, e.tag, result, callback);
    assert (ls + [l])[..|ls|] == ls;
    var aw := Awaited(ls);
    assert Awaited(ls + [l]) == aw + if lazy then [] else [l];
    if !lazy {
      assert Outcomes(aw + [l], e) == Outcomes(aw, e) + [Handler(l, e)];
    }
  }

  /** A lazy listener never contributes to the result. */
  lemma {:induction false} LazyNeverAnswers<T(!new), V>(bus: Bus<T, V>, event: T, result: T, callback: V -> Option<V>,
                                                      e: Boxed<T, V>, want: T)
    ensures Dispatched(Listen(bus, true, event, result, callback), e, want) == Dispatched(bus, e, want)
  {
    if event == e.tag {
      DispatchAfterListen(bus, true, result, callback, e);
      var xs := Outcomes(Awaited(ListenersOf(bus, e.tag)), e);
      assert xs + [] == xs;
    }
  }

  /** Only the listeners of the dispatched type run. */
  lemma {:induction false} OtherTypesNeverAnswer<T(!new), V>(bus: Bus<T, V>, lazy: bool, event: T, result: T,
                                                           callback: V -> Option<V>, e: Boxed<T, V>, want: T)
    requires event != e.tag
    ensures Dispatched(Listen(bus, lazy, event, result, callback), e, want) == Dispatched(bus, e, want)
  {
  }

  /** The last awaited listener that answers with the wanted type decides
      the result; one that answers `None` or a value of another type leaves
      the earlier result in place. */
  lemma {:induction false} LastAnswerWins<T(!new), V>(bus: Bus<T, V>, result: T, callback: V -> Option<V>,
                                                    e: Boxed<T, V>, want: T)
    ensures var after := Dispatched(Listen(bus, false, e.tag, result, callback), e, want);
            if result == want && callback(e.value).Some? then after == callback(e.value)
            else after == Dispatched(bus, e, want)
  {
    DispatchAfterListen(bus, false, result, callback, e);
    var xs := Outcomes(Awaited(ListenersOf(bus, e.tag)), e);
    var x := Handler(Listener(false, e.tag, result, callback), e);
    var ys := xs + [x];
    assert Dispatched(Listen(bus, false, e.tag, result, callback), e, want) == LastOfType(ys, want);
    assert Dispatched(bus, e, want) == LastOfType(xs, want);
    assert ys[|ys| - 1] == x && ys[..|ys| - 1] == xs;
    if result == want && callback(e.value).Some? {
      assert x == Some(Boxed(want, callback(e.value).value));
    } else {
      assert !OfType(x, want);
    }
  }

  /** Nobody listening means no result. */
  lemma {:induction false} NoListenersNoResult<T(!new), V>(bus: Bus<T, V>, e: Boxed<T, V>, want: T)
    requires ListenersOf(bus, e.tag) == []
    ensures Dispatched(bus, e, want) == None
  {
  }
}
