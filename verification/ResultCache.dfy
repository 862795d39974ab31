/** `createResultCache`: a cache in front of an asynchronous function, with calls that may overlap. */
module ResultCache {
  import opened Wrappers

  type Arg = string
  type CallId = nat

  datatype Entry<V> = Entry(timestamp: int, result: V)

  /** Waiting for the function (with what the cache held at the start), answered, or failed. */
  datatype Phase<V> = Waiting(seen: Option<Entry<V>>) | Answered(answer: Entry<V>) | Threw

  datatype Call<V> = Call(arg: Arg, startedAt: int, phase: Phase<V>)

  type Cache<V> = map<Arg, Entry<V>>

  function Lookup<V>(cache: Cache<V>, arg: Arg): Option<Entry<V>> {
    if arg in cache then Some(cache[arg]) else None
  }

  /** How old an answer may be, and JavaScript's truth of a result. */
  datatype Policy<!V> = Policy(expiryMs: nat, truthy: V -> bool)

  predicate Usable<V>(e: Option<Entry<V>>, now: int, p: Policy<V>) {
    e.Some? && p.truthy(e.value.result) && e.value.timestamp != 0 && e.value.timestamp >= now - p.expiryMs
  }

  /** Up to the `await`: answer from the cache, or call the function. */
  function Begin<V>(cache: Cache<V>, arg: Arg, now: int, p: Policy<V>): Call<V> {
    var seen := Lookup(cache, arg);
    Call(arg, now, if Usable(seen, now, p) then Answered(seen.value) else Waiting(seen))
  }

  /** The function failed: fall back on what the cache held at the start, if that was anything. */
  function Fallback<V>(seen: Option<Entry<V>>, p: Policy<V>): Phase<V> {
    if seen.Some? && p.truthy(seen.value.result) then Answered(seen.value) else Threw
  }

  // ---- overlapping calls -------------------------------------------------------------------

  datatype Event<V> =
    | Start(id: CallId, arg: Arg, now: int)
    | Resolve(id: CallId, value: V, now: int)
    | Reject(id: CallId)

  datatype State<V> = State(cache: Cache<V>, calls: map<CallId, Call<V>>)

  /** A call starts once, and the function answers each call it was made for at most once. */
  predicate Possible<V>(s: State<V>, e: Event<V>) {
    if e.Start? then e.id !in s.calls else e.id in s.calls && s.calls[e.id].phase.Waiting?
  }

  function Apply<V>(s: State<V>, e: Event<V>, p: Policy<V>): State<V>
    requires Possible(s, e)
  {
    match e
    case Start(id, arg, now) => s.(calls := s.calls[id := Begin(s.cache, arg, now, p)])
    case Resolve(id, value, now) =>
      var arg := s.calls[id].arg;
      State(s.cache[arg := Entry(now, value)], s.calls[id := s.calls[id].(phase := Answered(Entry(now, value)))])
    case Reject(id) => s.(calls := s.calls[id := s.calls[id].(phase := Fallback(s.calls[id].phase.seen, p))])
  }

  // ---- the closure -------------------------------------------------------------------------

  class Closure<V(==)> {
    var resultCache: Cache<V>
    const policy: Policy<V>
    /** The calls made so far, each with its local variables. */
    ghost var calls: map<CallId, Call<V>>

    constructor (policy: Policy<V>)
      ensures this.policy == policy && Current() == State(map[], map[])
    {
      this.policy := policy;
      resultCache := map[];
      calls := map[];
    }

    ghost function Current(): State<V>
      reads this
    {
      State(resultCache, calls)
    }

    /** `getResultAsync` up to the call of the function. */
    method GetResult(ghost id: CallId, getArgs: Arg, now: int) returns (call: Call<V>)
      requires Possible(Current(), Start(id, getArgs, now))
      modifies this
      ensures Current() == Apply(old(Current()), Start(id, getArgs, now), policy)
      ensures id in calls && calls[id] == call
    {
      call := Call(getArgs, now, Waiting(None));
      if getArgs in resultCache {
        var entry := resultCache[getArgs];
        call := call.(phase := Waiting(Some(entry)));
        if policy.truthy(entry.result) && entry.timestamp != 0 && entry.timestamp >= now - policy.expiryMs {
          call := call.(phase := Answered(entry));
        }
      }
      calls := calls[id := call];
    }

    /** The rest of it: the function returned a value at time `now`, or failed. */
    method Settle(ghost id: CallId, call: Call<V>, returned: Option<V>, now: int) returns (settled: Call<V>)
      requires id in calls && calls[id] == call && call.phase.Waiting?
      modifies this
      ensures Current() == Apply(old(Current()), Settling(id, returned, now), policy)
      ensures id in calls && calls[id] == settled
    {
      if returned.Some? {
        resultCache := resultCache[call.arg := Entry(now, returned.value)];
        settled := call.(phase := Answered(resultCache[call.arg]));
      } else if call.phase.seen.Some? && policy.truthy(call.phase.seen.value.result) {
        settled := call.(phase := Answered(call.phase.seen.value));
      } else {
        settled := call.(phase := Threw);
      }
      calls := calls[id := settled];
    }
  }

  /** The event that ends a waiting call. */
  function Settling<V>(id: CallId, returned: Option<V>, now: int): Event<V> {
    if returned.Some? then Resolve(id, returned.value, now) else Reject(id)
  }

  // ---- runs --------------------------------------------------------------------------------

  /** The state after a run, if the run is possible. */
  function After<V>(run: seq<Event<V>>, p: Policy<V>): Option<State<V>> {
    if run == [] then Some(State(map[], map[]))
    else
      var before := After(run[..|run| - 1], p);
      if before.None? || !Possible(before.value, run[|run| - 1]) then None
      else Some(Apply(before.value, run[|run| - 1], p))
  }

  /** Event `j` is the function returning for `arg`. */
  ghost predicate ReturnsFor<V>(run: seq<Event<V>>, j: nat, arg: Arg) {
    && j < |run| && run[j].Resolve?
    && exists i :: 0 <= i < j && run[i].Start? && run[i].id == run[j].id && run[i].arg == arg
  }

  /** ... and none did later. */
  ghost predicate LastReturnFor<V>(run: seq<Event<V>>, j: nat, arg: Arg) {
    ReturnsFor(run, j, arg) && forall k: nat :: j < k ==> !ReturnsFor(run, k, arg)
  }

  lemma ReturnsForPrefix<V>(run: seq<Event<V>>, j: nat, arg: Arg)
    requires run != [] && j < |run| - 1
    ensures ReturnsFor(run, j, arg) <==> ReturnsFor(run[..|run| - 1], j, arg)
  {
    var before := run[..|run| - 1];
    assert forall i :: 0 <= i <= j ==> before[i] == run[i];
  }

  /** A call carries the argument and the time of its start event, and no other start has its id. */
  lemma {:induction false} CallsStarted<V>(run: seq<Event<V>>, p: Policy<V>, i: nat)
    requires After(run, p).Some? && i < |run| && run[i].Start?
    ensures run[i].id in After(run, p).value.calls
    ensures After(run, p).value.calls[run[i].id].arg == run[i].arg
    ensures After(run, p).value.calls[run[i].id].startedAt == run[i].now
  {
    if i < |run| - 1 {
      assert run[..|run| - 1][i] == run[i];
      CallsStarted(run[..|run| - 1], p, i);
    }
  }

  lemma {:induction false} CallsHaveStarts<V>(run: seq<Event<V>>, p: Policy<V>, id: CallId) returns (i: nat)
    requires After(run, p).Some? && id in After(run, p).value.calls
    ensures i < |run| && run[i].Start? && run[i].id == id
  {
    var n := |run| - 1;
    if run[n].Start? && run[n].id == id {
      i := n;
    } else {
      i := CallsHaveStarts(run[..n], p, id);
      assert run[..n][i] == run[i];
    }
  }

  lemma ReturnForCall<V>(run: seq<Event<V>>, p: Policy<V>, arg: Arg)
    requires run != [] && After(run, p).Some? && run[|run| - 1].Resolve?
    ensures ReturnsFor(run, |run| - 1, arg) <==> After(run[..|run| - 1], p).value.calls[run[|run| - 1].id].arg == arg
  {
    var n, before := |run| - 1, run[..|run| - 1];
    if ReturnsFor(run, n, arg) {
      var i :| 0 <= i < n && run[i].Start? && run[i].id == run[n].id && run[i].arg == arg;
      assert before[i] == run[i];
      CallsStarted(before, p, i);
    } else {
      var i := CallsHaveStarts(before, p, run[n].id);
      assert before[i] == run[i];
      CallsStarted(before, p, i);
    }
  }

  lemma LastReturnUnchanged<V>(run: seq<Event<V>>, j: nat, arg: Arg)
    requires run != [] && !ReturnsFor(run, |run| - 1, arg)
    ensures LastReturnFor(run, j, arg) <==> LastReturnFor(run[..|run| - 1], j, arg)
  {
    var before := run[..|run| - 1];
    forall k: nat ensures ReturnsFor(run, k, arg) == ReturnsFor(before, k, arg) {
      if k < |run| - 1 {
        ReturnsForPrefix(run, k, arg);
      }
    }
    if LastReturnFor(run, j, arg) {
      forall k: nat | j < k ensures !ReturnsFor(before, k, arg) {
        assert ReturnsFor(run, k, arg) == ReturnsFor(before, k, arg);
      }
    }
    if LastReturnFor(before, j, arg) {
      forall k: nat | j < k ensures !ReturnsFor(run, k, arg) {
        assert ReturnsFor(run, k, arg) == ReturnsFor(before, k, arg);
      }
    }
  }

  /** The cache holds exactly the last return for each argument. */
  lemma {:induction false} CacheIsLastReturn<V>(run: seq<Event<V>>, p: Policy<V>, arg: Arg)
    requires After(run, p).Some?
    ensures arg in After(run, p).value.cache <==> exists j: nat :: LastReturnFor(run, j, arg)
    ensures forall j: nat :: LastReturnFor(run, j, arg) ==>
      Lookup(After(run, p).value.cache, arg) == Some(Entry(run[j].now, run[j].value))
  {
    if run == [] {
    } else {
      var n := |run| - 1;
      if run[n].Resolve? {
        ReturnForCall(run, p, arg);
      }
      if ReturnsFor(run, n, arg) {
        assert LastReturnFor(run, n, arg);
      } else {
        CacheIsLastReturn(run[..n], p, arg);
        forall j: nat ensures LastReturnFor(run, j, arg) <==> LastReturnFor(run[..n], j, arg) {
          LastReturnUnchanged(run, j, arg);
        }
      }
    }
  }

  /** The entry is what the function returned for `arg`, at the time it says. */
  ghost predicate Genuine<V>(run: seq<Event<V>>, arg: Arg, e: Entry<V>) {
    exists j: nat :: ReturnsFor(run, j, arg) && run[j].now == e.timestamp && run[j].value == e.result
  }

  lemma GenuineLater<V>(run: seq<Event<V>>, arg: Arg, e: Entry<V>)
    requires run != [] && Genuine(run[..|run| - 1], arg, e)
    ensures Genuine(run, arg, e)
  {
    var before := run[..|run| - 1];
    var j: nat :| ReturnsFor(before, j, arg) && before[j].now == e.timestamp && before[j].value == e.result;
    ReturnsForPrefix(run, j, arg);
    assert run[j] == before[j];
  }

  lemma CachedIsGenuine<V>(run: seq<Event<V>>, p: Policy<V>, arg: Arg)
    requires After(run, p).Some? && arg in After(run, p).value.cache
    ensures Genuine(run, arg, After(run, p).value.cache[arg])
  {
    CacheIsLastReturn(run, p, arg);
    var j: nat :| LastReturnFor(run, j, arg);
  }

  /** What a call holds, waiting or answered. */
  function Held<V>(c: Call<V>): Option<Entry<V>> {
    match c.phase
    case Waiting(seen) => seen
    case Answered(answer) => Some(answer)
    case Threw => None
  }

  /**
   * However calls overlap, every answer is a result the function returned for that very argument at
   * the stated time.
   */
  lemma {:induction false} EveryAnswerIsGenuine<V>(run: seq<Event<V>>, p: Policy<V>, id: CallId)
    requires After(run, p).Some? && id in After(run, p).value.calls && Held(After(run, p).value.calls[id]).Some?
    ensures Genuine(run, After(run, p).value.calls[id].arg, Held(After(run, p).value.calls[id]).value)
  {
    var n, before := |run| - 1, run[..|run| - 1];
    var was, call := After(before, p).value, After(run, p).value.calls[id];
    if run[n].id != id {
      EveryAnswerIsGenuine(before, p, id);
      GenuineLater(run, call.arg, Held(call).value);
    } else {
      match run[n]
      case Start(_, arg, _) =>
        CachedIsGenuine(before, p, arg);
        GenuineLater(run, arg, Held(call).value);
      case Resolve(_, _, _) =>
        ReturnForCall(run, p, call.arg);
      case Reject(_) =>
        EveryAnswerIsGenuine(before, p, id);
        GenuineLater(run, call.arg, Held(call).value);
    }
  }

  /** A cache in front of a function that always returns the same for an argument cannot be told from the function. */
  lemma PureFunctionsAreTransparent<V>(run: seq<Event<V>>, p: Policy<V>, f: Arg -> V, id: CallId)
    requires After(run, p).Some? && id in After(run, p).value.calls && After(run, p).value.calls[id].phase.Answered?
    requires forall j: nat, arg :: ReturnsFor(run, j, arg) ==> run[j].value == f(arg)
    ensures After(run, p).value.calls[id].phase.answer.result == f(After(run, p).value.calls[id].arg)
  {
    EveryAnswerIsGenuine(run, p, id);
  }

  // ---- freshness ---------------------------------------------------------------------------

  ghost predicate ClockRuns<V>(run: seq<Event<V>>) {
    forall i, j :: 0 <= i < j < |run| && !run[i].Reject? && !run[j].Reject? ==> run[i].now <= run[j].now
  }

  /** An answer is within the expiry of the call's start, unless the function failed in this very call. */
  lemma {:induction false} AnswersAreFresh<V>(run: seq<Event<V>>, p: Policy<V>, id: CallId)
    requires After(run, p).Some? && id in After(run, p).value.calls && After(run, p).value.calls[id].phase.Answered?
    requires ClockRuns(run)
    ensures var call := After(run, p).value.calls[id];
      call.phase.answer.timestamp >= call.startedAt - p.expiryMs || Reject(id) in run
  {
    var n, before := |run| - 1, run[..|run| - 1];
    if run[n].id != id {
      AnswersAreFresh(before, p, id);
      assert Reject(id) in before ==> Reject(id) in run;
    } else if run[n].Resolve? {
      var i := CallsHaveStarts(before, p, id);
      CallsStarted(before, p, i);
      assert before[i] == run[i];
    } else if run[n].Reject? {
      assert run[n] == Reject(id);
    }
  }

  /** A waiting call holds what the cache held when it started: the last return before it, or nothing. */
  lemma {:induction false} SeenAtStart<V>(run: seq<Event<V>>, p: Policy<V>, id: CallId, i: nat)
    requires After(run, p).Some? && i < |run| && run[i].Start? && run[i].id == id
    requires id in After(run, p).value.calls && After(run, p).value.calls[id].phase.Waiting?
    ensures After(run[..i], p).Some?
    ensures After(run, p).value.calls[id].phase.seen == Lookup(After(run[..i], p).value.cache, run[i].arg)
    decreases |run|
  {
    var n := |run| - 1;
    if i < n {
      assert run[..n][i] == run[i] && run[..n][..i] == run[..i];
      CallsStarted(run[..n], p, i);
      SeenAtStart(run[..n], p, id, i);
    }
  }

  /**
   * A call throws exactly when the function fails and the last return before the call's start was
   * falsy or never was.
   */
  lemma ThrowsExactly<V>(run: seq<Event<V>>, p: Policy<V>, id: CallId, i: nat)
    requires After(run + [Reject(id)], p).Some? && i < |run| && run[i].Start? && run[i].id == id
    ensures id in After(run + [Reject(id)], p).value.calls
    ensures After(run + [Reject(id)], p).value.calls[id].phase.Threw?
       <==> !exists j: nat :: LastReturnFor(run[..i], j, run[i].arg) && p.truthy(run[j].value)
  {
    var whole := run + [Reject(id)];
    assert whole[..|run|] == run;
    SeenAtStart(run, p, id, i);
    CacheIsLastReturn(run[..i], p, run[i].arg);
  }

  /**
   * A call is answered from the cache, without calling the function, exactly when the last return for
   * its argument was truthy, has a time, and is no older than the expiry; and it is answered with it.
   */
  lemma HitsExactly<V>(run: seq<Event<V>>, p: Policy<V>, id: CallId, arg: Arg, now: int)
    requires After(run + [Start(id, arg, now)], p).Some?
    ensures id in After(run + [Start(id, arg, now)], p).value.calls
    ensures After(run + [Start(id, arg, now)], p).value.calls[id].phase.Answered? <==>
      exists j: nat :: LastReturnFor(run, j, arg) && p.truthy(run[j].value) && run[j].now != 0
                       && now - run[j].now <= p.expiryMs
    ensures After(run + [Start(id, arg, now)], p).value.calls[id].phase.Answered? ==>
      forall j: nat :: LastReturnFor(run, j, arg) ==>
        After(run + [Start(id, arg, now)], p).value.calls[id].phase.answer == Entry(run[j].now, run[j].value)
  {
    var whole := run + [Start(id, arg, now)];
    assert whole[..|run|] == run;
    CacheIsLastReturn(run, p, arg);
  }
}
