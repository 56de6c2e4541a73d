/** Sequential histories of the client: createDocument calls interleaved with
    the timer's resets, each one an indivisible step. The timer is an explicit
    `Tick` event, so "within one window" means "between two ticks". */
module Window {
  import opened Documents
  import opened CrptApi

  /** A createDocument call (with what the transport answers to it), or a
      timer tick running run(). */
  datatype Event = Create(document: Document, exchange: Exchange) | Tick

  /** The limiter state after a history, and the outcome of each call in it. */
  datatype Replay = Replay(limiter: Limiter, outcomes: seq<Outcome>)

  function Creates(t: seq<Event>): nat
  {
    if t == [] then 0 else (if t[0].Create? then 1 else 0) + Creates(t[1..])
  }

  function Ticks(t: seq<Event>): nat
  {
    if t == [] then 0 else (if t[0].Tick? then 1 else 0) + Ticks(t[1..])
  }

  /** How many of the outcomes got past the limiter. */
  function CountAdmitted(os: seq<Outcome>): nat
  {
    if os == [] then 0 else (if os[0].Admitted() then 1 else 0) + CountAdmitted(os[1..])
  }

  /** Runs a history from limiter state `l` with the client's encoder. */
  function RunHistory(l: Limiter, objectMapper: Document -> Serialization, t: seq<Event>): (r: Replay)
    ensures |r.outcomes| == Creates(t)
    ensures r.limiter.limit == l.limit
    decreases |t|
  {
    if t == [] then Replay(l, [])
    else
      match t[0]
      case Tick => RunHistory(Reset(l), objectMapper, t[1..])
      case Create(document, exchange) =>
        var s := Call(l, objectMapper, document, exchange);
        var rest := RunHistory(s.limiter, objectMapper, t[1..]);
        Replay(rest.limiter, [s.outcome] + rest.outcomes)
  }

  predicate NoTicks(t: seq<Event>) {
    forall i :: 0 <= i < |t| ==> t[i].Create?
  }

  /** Within one window (no tick), starting from counter `c`: the call at
      position i is accepted exactly when c + i is below the limit, and the
      counter ends at c plus the number of calls. */
  lemma {:induction false} CallsWithinWindow(l: Limiter, objectMapper: Document -> Serialization, t: seq<Event>)
    requires NoTicks(t)
    ensures |RunHistory(l, objectMapper, t).outcomes| == |t|
    ensures RunHistory(l, objectMapper, t).limiter.calls == l.calls + |t|
    ensures forall i :: 0 <= i < |t| ==>
              (RunHistory(l, objectMapper, t).outcomes[i].Admitted() <==> l.calls + i < l.limit)
    decreases |t|
  {
    if t != [] {
      var s := Call(l, objectMapper, t[0].document, t[0].exchange);
      assert NoTicks(t[1..]) by {
        forall i | 0 <= i < |t[1..]| ensures t[1..][i].Create? {
          assert t[1..][i] == t[i + 1];
        }
      }
      CallsWithinWindow(s.limiter, objectMapper, t[1..]);
      var rest := RunHistory(s.limiter, objectMapper, t[1..]);
      assert RunHistory(l, objectMapper, t).outcomes == [s.outcome] + rest.outcomes;
      forall i | 0 <= i < |t|
        ensures RunHistory(l, objectMapper, t).outcomes[i].Admitted() <==> l.calls + i < l.limit
      {
        if i > 0 {
          assert RunHistory(l, objectMapper, t).outcomes[i] == rest.outcomes[i - 1];
        }
      }
    }
  }

  /** Outcomes whose acceptance is "position below k" contain min(length, k)
      accepted ones. */
  lemma {:induction false} CountAdmittedPrefix(os: seq<Outcome>, k: int)
    requires forall i :: 0 <= i < |os| ==> (os[i].Admitted() <==> i < k)
    ensures CountAdmitted(os) == if k <= 0 then 0 else if |os| <= k then |os| else k
  {
    if os != [] {
      forall i | 0 <= i < |os[1..]| ensures os[1..][i].Admitted() <==> i < k - 1 {
        assert os[1..][i] == os[i + 1];
      }
      CountAdmittedPrefix(os[1..], k - 1);
    }
  }

  /** A fresh window of `limit` N: the first N calls are accepted, every later
      one is rejected, and exactly min(calls, N) get through. */
  lemma FreshWindow(limit: nat, objectMapper: Document -> Serialization, t: seq<Event>)
    requires NoTicks(t)
    ensures |RunHistory(Limiter(0, limit), objectMapper, t).outcomes| == |t|
    ensures forall i :: 0 <= i < |t| ==>
              (RunHistory(Limiter(0, limit), objectMapper, t).outcomes[i].Admitted() <==> i < limit)
    ensures CountAdmitted(RunHistory(Limiter(0, limit), objectMapper, t).outcomes)
              == if |t| <= limit then |t| else limit
  {
    CallsWithinWindow(Limiter(0, limit), objectMapper, t);
    CountAdmittedPrefix(RunHistory(Limiter(0, limit), objectMapper, t).outcomes, limit);
  }

  /** Within one window, once a call is rejected every later call is rejected
      too: rejections are not rolled back. */
  lemma OnceRejectedAlwaysRejected(l: Limiter, objectMapper: Document -> Serialization, t: seq<Event>, i: nat, j: nat)
    requires NoTicks(t) && i <= j < |RunHistory(l, objectMapper, t).outcomes|
    requires !RunHistory(l, objectMapper, t).outcomes[i].Admitted()
    ensures !RunHistory(l, objectMapper, t).outcomes[j].Admitted()
  {
    CallsWithinWindow(l, objectMapper, t);
  }

  /** With limit 0, no call of any history is accepted or reaches the
      transport: each returns false. */
  lemma {:induction false} LimitZeroRejectsAll(l: Limiter, objectMapper: Document -> Serialization, t: seq<Event>)
    requires l.limit == 0
    ensures forall i :: 0 <= i < |RunHistory(l, objectMapper, t).outcomes| ==>
              RunHistory(l, objectMapper, t).outcomes[i] == Outcome(Returned(false), None)
    decreases |t|
  {
    if t != [] {
      match t[0]
      case Tick =>
        LimitZeroRejectsAll(Reset(l), objectMapper, t[1..]);
      case Create(document, exchange) =>
        var s := Call(l, objectMapper, document, exchange);
        LimitZeroRejectsAll(s.limiter, objectMapper, t[1..]);
    }
  }

  /** The fixed-window bound over a whole history: with k ticks it accepts at
      most limit * (k + 1) calls, less whatever the first window had already
      used up. */
  lemma {:induction false} AtMostLimitPerHistory(l: Limiter, objectMapper: Document -> Serialization, t: seq<Event>)
    ensures CountAdmitted(RunHistory(l, objectMapper, t).outcomes) + (if l.calls <= l.limit then l.calls else l.limit)
              <= l.limit * (Ticks(t) + 1)
    decreases |t|
  {
    if t != [] {
      match t[0]
      case Tick =>
        AtMostLimitPerHistory(Reset(l), objectMapper, t[1..]);
        assert l.limit * (Ticks(t) + 1) == l.limit * (Ticks(t[1..]) + 1) + l.limit;
      case Create(document, exchange) =>
        var s := Call(l, objectMapper, document, exchange);
        var rest := RunHistory(s.limiter, objectMapper, t[1..]);
        AtMostLimitPerHistory(s.limiter, objectMapper, t[1..]);
        assert ([s.outcome] + rest.outcomes)[1..] == rest.outcomes;
    }
  }

  lemma {:induction false} CountAdmittedAppend(a: seq<Outcome>, b: seq<Outcome>)
    ensures CountAdmitted(a + b) == CountAdmitted(a) + CountAdmitted(b)
  {
    if a == [] {
      assert a + b == b;
    } else {
      assert (a + b)[0] == a[0];
      assert (a + b)[1..] == a[1..] + b;
      CountAdmittedAppend(a[1..], b);
    }
  }

  /** Running two histories one after the other is running their
      concatenation. */
  lemma {:induction false} RunAppend(l: Limiter, objectMapper: Document -> Serialization, t1: seq<Event>, t2: seq<Event>)
    ensures RunHistory(l, objectMapper, t1 + t2)
              == Replay(RunHistory(RunHistory(l, objectMapper, t1).limiter, objectMapper, t2).limiter,
                        RunHistory(l, objectMapper, t1).outcomes + RunHistory(RunHistory(l, objectMapper, t1).limiter, objectMapper, t2).outcomes)
    decreases |t1|
  {
    if t1 == [] {
      assert t1 + t2 == t2;
    } else {
      assert (t1 + t2)[0] == t1[0];
      assert (t1 + t2)[1..] == t1[1..] + t2;
      match t1[0]
      case Tick =>
        RunAppend(Reset(l), objectMapper, t1[1..], t2);
      case Create(document, exchange) =>
        var s := Call(l, objectMapper, document, exchange);
        RunAppend(s.limiter, objectMapper, t1[1..], t2);
    }
  }

  /** A tick in a history starts a fresh window: what follows runs from
      counter 0, whatever came before. */
  lemma RunAfterTick(l: Limiter, objectMapper: Document -> Serialization, before: seq<Event>, after: seq<Event>)
    ensures RunHistory(l, objectMapper, before + [Tick] + after).outcomes
              == RunHistory(l, objectMapper, before).outcomes + RunHistory(Limiter(0, l.limit), objectMapper, after).outcomes
  {
    var r1 := RunHistory(l, objectMapper, before);
    var tw := [Tick] + after;
    assert tw[0] == Tick && tw[1..] == after;
    assert RunHistory(r1.limiter, objectMapper, tw) == RunHistory(Limiter(0, l.limit), objectMapper, after);
    assert before + [Tick] + after == before + tw;
    RunAppend(l, objectMapper, before, tw);
  }

  /** One window: after a tick, whatever came before, the calls up to the next
      tick add exactly min(calls, limit) accepted ones, so never more than the
      limit. */
  lemma AtMostLimitPerWindow(l: Limiter, objectMapper: Document -> Serialization, before: seq<Event>, window: seq<Event>)
    requires NoTicks(window)
    ensures CountAdmitted(RunHistory(l, objectMapper, before + [Tick] + window).outcomes)
              == CountAdmitted(RunHistory(l, objectMapper, before).outcomes)
                 + (if |window| <= l.limit then |window| else l.limit)
  {
    RunAfterTick(l, objectMapper, before, window);
    FreshWindow(l.limit, objectMapper, window);
    CountAdmittedAppend(RunHistory(l, objectMapper, before).outcomes, RunHistory(Limiter(0, l.limit), objectMapper, window).outcomes);
  }

  /** A window closed by a later tick: whatever comes before and after, the
      calls between the two ticks contribute exactly min(calls, limit)
      accepted ones. */
  lemma WindowBetweenTicks(l: Limiter, objectMapper: Document -> Serialization,
                           before: seq<Event>, window: seq<Event>, after: seq<Event>)
    requires NoTicks(window)
    ensures CountAdmitted(RunHistory(l, objectMapper, before + [Tick] + window + [Tick] + after).outcomes)
              == CountAdmitted(RunHistory(l, objectMapper, before).outcomes)
                 + (if |window| <= l.limit then |window| else l.limit)
                 + CountAdmitted(RunHistory(Limiter(0, l.limit), objectMapper, after).outcomes)
  {
    RunAfterTick(l, objectMapper, before + [Tick] + window, after);
    CountAdmittedAppend(RunHistory(l, objectMapper, before + [Tick] + window).outcomes,
                        RunHistory(Limiter(0, l.limit), objectMapper, after).outcomes);
    AtMostLimitPerWindow(l, objectMapper, before, window);
  }

  /** The fixed-window edge effect: N calls just before a tick and N just
      after are all accepted, 2 * N in a short span, although each window
      stayed within its limit N. The bound of AtMostLimitPerHistory is met. */
  lemma BurstAcrossReset(limit: nat, objectMapper: Document -> Serialization, before: seq<Event>, after: seq<Event>)
    requires NoTicks(before) && NoTicks(after)
    requires |before| == limit && |after| == limit
    ensures CountAdmitted(RunHistory(Limiter(0, limit), objectMapper, before + [Tick] + after).outcomes) == 2 * limit
  {
    var l := Limiter(0, limit);
    var r1 := RunHistory(l, objectMapper, before);
    FreshWindow(limit, objectMapper, before);
    RunAppend(l, objectMapper, before, [Tick] + after);
    assert before + [Tick] + after == before + ([Tick] + after);
    var r2 := RunHistory(r1.limiter, objectMapper, [Tick] + after);
    assert ([Tick] + after)[1..] == after;
    assert r2 == RunHistory(Reset(r1.limiter), objectMapper, after);
    assert Reset(r1.limiter) == Limiter(0, limit);
    FreshWindow(limit, objectMapper, after);
    CountAdmittedAppend(r1.outcomes, r2.outcomes);
  }

  /** Limit 2: two calls in a window are accepted, the third is rejected, and
      after the tick the fourth is accepted again. */
  lemma TwoPerWindow(objectMapper: Document -> Serialization, document: Document, exchange: Exchange)
    ensures var os := RunHistory(Limiter(0, 2), objectMapper,
                          [Create(document, exchange), Create(document, exchange), Create(document, exchange),
                           Tick, Create(document, exchange)]).outcomes;
            |os| == 4 && os[0].Admitted() && os[1].Admitted() && !os[2].Admitted() && os[3].Admitted()
  {
    var c := Create(document, exchange);
    var t := [c, c, c, Tick, c];
    RunAppend(Limiter(0, 2), objectMapper, [c, c, c], [Tick, c]);
    assert t == [c, c, c] + [Tick, c];
    FreshWindow(2, objectMapper, [c, c, c]);
    assert [Tick, c][1..] == [c];
  }

  /** Drives a client object through a history: each `Create` is a
      createDocument call, each `Tick` the timer's run(). The object ends in
      the state `RunHistory` gives and yields the same outcomes, so the lemmas above
      about histories hold of the object. */
  method Drive(api: CrptApiImpl, t: seq<Event>) returns (outcomes: seq<Outcome>)
    modifies api
    ensures api.State() == RunHistory(old(api.State()), api.objectMapper, t).limiter
    ensures outcomes == RunHistory(old(api.State()), api.objectMapper, t).outcomes
  {
    ghost var s0 := api.State();
    outcomes := [];
    for i := 0 to |t|
      invariant api.State() == RunHistory(s0, api.objectMapper, t[..i]).limiter
      invariant outcomes == RunHistory(s0, api.objectMapper, t[..i]).outcomes
    {
      RunAppend(s0, api.objectMapper, t[..i], [t[i]]);
      assert t[..i + 1] == t[..i] + [t[i]];
      assert [t[i]][1..] == [];
      match t[i]
      case Tick =>
        api.Run();
      case Create(document, exchange) =>
        var reply, sent := api.CreateDocument(document, "", exchange);
        outcomes := outcomes + [Outcome(reply, sent)];
    }
    assert t[..|t|] == t;
  }
}
