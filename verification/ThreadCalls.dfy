/**
 What whole calls on the shared pool leave behind (src/terark/mempool_thread_cache.hpp).

 A call of one thread runs from its first step until the thread is idle again, with any steps of
 other threads in between. Its result is stated on the blocks that the callers hold.
 */
module ThreadCalls {
  import opened ThreadCache
  import opened ThreadPool

  // ------------------------------------------------------------------------ runs

  /** The steps `es` can be taken from `s`, one after the other. */
  ghost predicate Runs(c: Config, s: State, es: seq<Event>)
    decreases |es|
  {
    |es| == 0 || (Inv(c, s) && Enabled(c, s, es[0]) && Runs(c, Step(c, s, es[0]), es[1..]))
  }

  /** Where they lead. */
  ghost function End(c: Config, s: State, es: seq<Event>): State
    requires Runs(c, s, es)
    decreases |es|
  {
    if |es| == 0 then s else End(c, Step(c, s, es[0]), es[1..])
  }

  /** A run from a reachable state reaches its end. */
  lemma {:induction false} RunReaches(c: Config, before: seq<Event>, s: State, es: seq<Event>)
    requires Reaches(c, before, s) && Runs(c, s, es)
    ensures Reaches(c, before + es, End(c, s, es))
    decreases |es|
  {
    hide Inv, Enabled, Step, Reaches;
    if |es| > 0 {
      RunsContinue(c, before, s, es[0]);
      RunReaches(c, before + [es[0]], Step(c, s, es[0]), es[1..]);
      assert before + [es[0]] + es[1..] == before + es;
    } else {
      assert before + es == before;
    }
  }

  // ----------------------------------------------------------- the steps of one call

  const Nobody: int := -1

  /** The thread whose call a step belongs to. */
  function Actor(e: Event): int
  {
    match e
    case Allocate(i, _) => i
    case Free(i, _) => i
    case Realloc(i, _, _) => i
    case Load(i) => i
    case Swap(i, _) => i
    case Install(i) => i
    case Again(i) => i
    case Sync(_) => Nobody
    case Spawn => Nobody
  }

  predicate Starts(e: Event)
  {
    e.Allocate? || e.Free? || e.Realloc?
  }

  /** Thread `i` is in a call that has found nothing of its own and asks the pool for `request`. */
  ghost predicate Pending(th: Thread, request: nat, why: Purpose)
  {
    !th.pc.Idle? && th.pc.request == request && th.pc.why == why
  }

  /** The thread is idle again and has put a block of the requested length into its callers' hands. */
  ghost predicate Served(s: State, s': State, i: nat, request: nat, p: nat)
    requires i < |s'.threads|
  {
    s'.threads[i].pc.Idle? && s'.live == s.live + [Block(p, request)]
  }

  /** Every byte of a block that was given up and is not in the new one is owned by the thread. */
  ghost predicate TakenOver(th: Thread, why: Purpose, p: nat, request: nat)
  {
    why.ForRealloc? ==> forall x: nat :: why.held.pos <= x < why.held.pos + why.held.len && !(p <= x < p + request) ==> Own(Owns(x), th) == 1
  }

  /** Steps of others and of nobody leave a thread where it is in its call, and what it owns. */
  lemma OtherStep(c: Config, s: State, e: Event, i: nat)
    requires Inv(c, s) && Enabled(c, s, e) && i < |s.threads| && Actor(e) != i
    ensures var s' := Step(c, s, e); i < |s'.threads| && s'.threads[i].pc == s.threads[i].pc
    ensures forall m :: Own(m, Step(c, s, e).threads[i]) == Own(m, s.threads[i])
  {
    hide Inv, Alloc, Alloc3, Sfree, SetHotArea, ChunkLen, M;
  }

  /** The load either finds room and goes on, or gives up for lack of capacity and returns the
      block of a reallocation. */
  lemma LoadStep(c: Config, s: State, i: nat)
    requires Inv(c, s) && Enabled(c, s, Load(i))
    ensures var s', th := Step(c, s, Load(i)), s.threads[i];
            && i < |s'.threads| && s'.n == s.n
            && (s.n + th.pc.request <= c.cap ==> s'.threads[i].pc.Loaded? && Pending(s'.threads[i], th.pc.request, th.pc.why) && s'.threads[i].pc.oldn == s.n && s'.live == s.live)
            && (s.n + th.pc.request > c.cap ==> s'.threads[i].pc.Idle? && s'.live == s.live + Returned(th.pc.why))
  {
    assert ThreadOk(c, s.threads[i]);
    hide ThreadOk, ChunkLen, Returned;
    NoChunkIff(c, s.n, s.threads[i].pc.request);
  }

  /** Swapping and installing keep the call going; the swap fails only if it is let down or the
      end has moved since the load. */
  lemma MiddleStep(c: Config, s: State, e: Event, i: nat)
    requires Inv(c, s) && Enabled(c, s, e) && (e == Install(i) || (e.Swap? && e.i == i))
    ensures var s', th := Step(c, s, e), s.threads[i];
            && i < |s'.threads| && s'.live == s.live && Pending(s'.threads[i], th.pc.request, th.pc.why)
            && (e.Install? ==> s'.threads[i].pc.Retry? && s'.n == s.n)
            && (e.Swap? && !e.spurious && s.n == th.pc.oldn ==> s'.threads[i].pc.Reserved?)
            && (e.Swap? && (e.spurious || s.n != th.pc.oldn) ==> s'.threads[i].pc.NeedChunk? && s'.n == s.n)
  {
    hide Inv, SetHotArea;
  }

  /** What a step of thread `i` alone takes from its callers it owns afterwards, and the reverse. */
  lemma Balance(c: Config, s: State, s': State, i: nat, m: Measure)
    requires Inv(c, s) && Inv(c, s') && s'.n == s.n && i < |s.threads| && |s'.threads| == |s.threads| && s'.threads == s.threads[i := s'.threads[i]]
    ensures Sum(m, s'.live) + Own(m, s'.threads[i]) == Sum(m, s.live) + Own(m, s.threads[i])
  {
    hide ThreadOk, M, Own;
    assert Accounted(s, m) && Accounted(s', m);
    SumOwnUpdate(m, s.threads, i, s'.threads[i]);
  }

  lemma OneOwner(c: Config, s: State, i: nat, x: nat)
    requires Inv(c, s) && i < |s.threads|
    ensures Sum(Owns(x), s.live) + Own(Owns(x), s.threads[i]) <= 1
  {
    hide ThreadOk, Own;
    assert Accounted(s, Owns(x));
    OwnPart(Owns(x), s.threads, i);
  }

  /** The last step serves the request; a reallocation frees its old block to the thread. */
  lemma AgainStep(c: Config, s: State, i: nat) returns (p: nat)
    requires Inv(c, s) && Enabled(c, s, Again(i))
    ensures var s', th := Step(c, s, Again(i)), s.threads[i];
            i < |s'.threads| && s'.n == s.n && Served(s, s', i, th.pc.request, p) && TakenOver(s'.threads[i], th.pc.why, p, th.pc.request)
  {
    var th := s.threads[i];
    var s' := Step(c, s, Again(i));
    p := AgainLive(c, s, i);
    AgainKeeps(c, s, i);
    hide Inv, DoAgain, Own, M;
    if th.pc.why.ForRealloc? {
      var b := th.pc.why.held;
      forall x: nat | b.pos <= x < b.pos + b.len && !(p <= x < p + th.pc.request) ensures Own(Owns(x), s'.threads[i]) == 1 {
        OneOwner(c, s, i, x);
        HeldOwned(th, x);
        Balance(c, s, s', i, Owns(x));
        LiveAdd(Owns(x), s.live, Block(p, th.pc.request));
        OwnsNot(Block(p, th.pc.request), x);
      }
    }
  }

  lemma AgainLive(c: Config, s: State, i: nat) returns (p: nat)
    requires Inv(c, s) && Enabled(c, s, Again(i))
    ensures var s', th := DoAgain(c, s, i), s.threads[i];
            |s'.threads| == |s.threads| && s'.threads == s.threads[i := s'.threads[i]] && s'.n == s.n && Served(s, s', i, th.pc.request, p)
  {
    var th := s.threads[i];
    SecondTrySucceeds(c, s, i);
    AllocConserves(Bytes, c, th.cache, th.pc.request);
    p := Alloc(c, th.cache, th.pc.request).pos;
    hide Alloc, Sfree, M, Held;
  }

  lemma HeldOwned(th: Thread, x: nat)
    requires th.pc.Retry? && th.pc.why.ForRealloc? && th.pc.why.held.pos <= x < th.pc.why.held.pos + th.pc.why.held.len
    ensures Own(Owns(x), th) >= 1
  {
  }

  lemma OwnsNot(b: Block, x: nat)
    ensures M(Owns(x), b) == if b.pos <= x < b.pos + b.len then 1 else 0
  {
  }

  /** A new thread is idle and owns nothing. */
  lemma SpawnStep(c: Config, s: State)
    requires Inv(c, s)
    ensures var s' := Step(c, s, Spawn); s'.live == s.live && s'.n == s.n && |s'.threads| == |s.threads| + 1 && s'.threads[|s.threads|].pc.Idle?
    ensures forall m :: Own(m, Step(c, s, Spawn).threads[|s.threads|]) == 0
  {
    hide Inv, M;
    forall m ensures Own(m, Step(c, s, Spawn).threads[|s.threads|]) == 0 {
      FreshOwnsNothing(m, c);
      NoBytes(m, 0);
    }
  }

  // ------------------------------------------------------------------ the first steps

  /** An allocation is served from what the thread has, or asks the pool. */
  lemma AllocateStep(c: Config, s: State, i: nat, request: nat) returns (p: nat)
    requires Inv(c, s) && Enabled(c, s, Allocate(i, request))
    ensures var s' := Step(c, s, Allocate(i, request));
            && i < |s'.threads| && s'.n == s.n
            && (Served(s, s', i, request, p) || (s'.threads[i].pc == NeedChunk(request, ForAlloc) && s'.live == s.live))
            && (Served(s, s', i, request, p) <==> Alloc(c, s.threads[i].cache, request).pos != NoPos)
  {
    var o := Alloc(c, s.threads[i].cache, request);
    AllocConserves(Bytes, c, s.threads[i].cache, request);
    p := if o.pos >= 0 then o.pos else 0;
    hide Alloc, M, Held;
  }

  /** A free takes the block from the callers, and the thread owns its bytes. */
  lemma FreeStep(c: Config, s: State, i: nat, k: nat)
    requires Inv(c, s) && Enabled(c, s, Free(i, k))
    ensures var s' := Step(c, s, Free(i, k));
            && i < |s'.threads| && s'.n == s.n && s'.threads[i].pc.Idle? && s'.live == Without(s.live, k)
            && forall x: nat :: s.live[k].pos <= x < s.live[k].pos + s.live[k].len ==> Own(Owns(x), s'.threads[i]) == 1
  {
    var s', b := Step(c, s, Free(i, k)), s.live[k];
    FreeKeeps(c, s, i, k);
    hide Inv, Sfree, Own, M;
    forall x: nat | b.pos <= x < b.pos + b.len ensures Own(Owns(x), s'.threads[i]) == 1 {
      OneOwner(c, s, i, x);
      Balance(c, s, s', i, Owns(x));
      LiveSums(Owns(x), s.live, k, b);
      OwnsNot(b, x);
    }
  }

  /** A reallocation is served at once, or takes the block out of its callers' hands and asks. */
  lemma ReallocStep(c: Config, s: State, i: nat, k: nat, newlen: nat) returns (p: nat)
    requires Inv(c, s) && Enabled(c, s, Realloc(i, k, newlen))
    ensures var s', b := Step(c, s, Realloc(i, k, newlen)), s.live[k]; var rest := s.(live := Without(s.live, k));
            && i < |s'.threads| && s'.n == s.n
            && ((Served(rest, s', i, newlen, p) && TakenOver(s'.threads[i], ForRealloc(b), p, newlen))
                || (s'.threads[i].pc == NeedChunk(newlen, ForRealloc(b)) && s'.live == Without(s.live, k) && newlen > b.len))
            && (s'.threads[i].pc.Idle? <==> Alloc3(c, s.threads[i].cache, b, newlen).pos != NoPos)
  {
    var s', b := Step(c, s, Realloc(i, k, newlen)), s.live[k];
    Alloc3Ok(Bytes, c, s.threads[i].cache, b, newlen);
    ReallocKeeps(c, s, i, k, newlen);
    var o := Alloc3(c, s.threads[i].cache, b, newlen);
    p := if o.pos >= 0 then o.pos else 0;
    hide Inv, Alloc3, Own, M;
    if o.pos != NoPos {
      forall x: nat | b.pos <= x < b.pos + b.len && !(p <= x < p + newlen) ensures Own(Owns(x), s'.threads[i]) == 1 {
        OneOwner(c, s, i, x);
        Balance(c, s, s', i, Owns(x));
        LiveSums(Owns(x), s.live, k, Block(p, newlen));
        OwnsNot(b, x);
        OwnsNot(Block(p, newlen), x);
      }
    }
  }

  // -------------------------------------------------------------------- whole calls

  /** What the steps of everybody but thread `i` put into the callers' hands during a run. */
  ghost function Got(c: Config, s: State, es: seq<Event>, i: nat): multiset<Block>
    requires Runs(c, s, es)
    decreases |es|
  {
    if |es| == 0 then multiset{}
    else
      var s' := Step(c, s, es[0]);
      (if Actor(es[0]) == i then multiset{} else multiset(s'.live) - multiset(s.live)) + Got(c, s', es[1..], i)
  }

  /** And what they took out of them. */
  ghost function Lost(c: Config, s: State, es: seq<Event>, i: nat): multiset<Block>
    requires Runs(c, s, es)
    decreases |es|
  {
    if |es| == 0 then multiset{}
    else
      var s' := Step(c, s, es[0]);
      (if Actor(es[0]) == i then multiset{} else multiset(s.live) - multiset(s'.live)) + Lost(c, s', es[1..], i)
  }

  /** Thread `i` begins no other call in this run. */
  ghost predicate Continues(es: seq<Event>, i: nat)
  {
    forall j :: 0 <= j < |es| && Actor(es[j]) == i ==> !Starts(es[j])
  }

  /** Apart from what the others did, the callers hold `before` and `gain` in the end. */
  ghost predicate Follows(c: Config, s: State, es: seq<Event>, i: nat, before: multiset<Block>, gain: multiset<Block>)
    requires Runs(c, s, es)
  {
    multiset(End(c, s, es).live) + Lost(c, s, es, i) == before + Got(c, s, es, i) + gain
  }

  lemma FollowsOther(c: Config, s: State, es: seq<Event>, i: nat, gain: multiset<Block>)
    requires Runs(c, s, es) && |es| > 0 && Actor(es[0]) != i && Follows(c, Step(c, s, es[0]), es[1..], i, multiset(Step(c, s, es[0]).live), gain)
    ensures Follows(c, s, es, i, multiset(s.live), gain)
  {
    hide Inv, Enabled, Step;
    var s' := Step(c, s, es[0]);
    Swapped(multiset(s.live), multiset(s'.live), Got(c, s', es[1..], i), Lost(c, s', es[1..], i), multiset(End(c, s', es[1..]).live), gain);
  }

  lemma Swapped(a: multiset<Block>, b: multiset<Block>, got: multiset<Block>, lost: multiset<Block>, end: multiset<Block>, gain: multiset<Block>)
    requires end + lost == b + got + gain
    ensures end + ((a - b) + lost) == a + ((b - a) + got) + gain
  {
    assert a + (b - a) == b + (a - b);
    assert end + ((a - b) + lost) == (end + lost) + (a - b) == (b + got + gain) + (a - b);
    assert (b + got + gain) + (a - b) == (b + (a - b)) + got + gain == a + ((b - a) + got) + gain;
  }

  lemma FollowsOwn(c: Config, s: State, es: seq<Event>, i: nat, before: multiset<Block>, gain: multiset<Block>)
    requires Runs(c, s, es) && |es| > 0 && Actor(es[0]) == i && Follows(c, Step(c, s, es[0]), es[1..], i, before, gain)
    ensures Follows(c, s, es, i, before, gain)
  {
    hide Inv, Enabled, Step;
    var s' := Step(c, s, es[0]);
    var got, lost := Got(c, s', es[1..], i), Lost(c, s', es[1..], i);
    assert multiset{} + got == got && multiset{} + lost == lost;
  }

  /** The gain of the first step of a run counts as gain of the run. */
  lemma Shifted(c: Config, s: State, es: seq<Event>, i: nat, before: multiset<Block>, gain: multiset<Block>)
    requires Runs(c, s, es) && Follows(c, s, es, i, multiset(s.live), multiset{}) && multiset(s.live) == before + gain
    ensures Follows(c, s, es, i, before, gain)
  {
    hide Inv, Enabled, Step, Runs;
    var got := Got(c, s, es, i);
    assert before + gain + got + multiset{} == before + got + gain;
  }

  /** An idle thread that begins nothing stays idle, and keeps what it owns. */
  lemma {:induction false} IdleRun(c: Config, s: State, es: seq<Event>, i: nat)
    requires Inv(c, s) && Runs(c, s, es) && i < |s.threads| && s.threads[i].pc.Idle? && Continues(es, i)
    ensures var t := End(c, s, es); i < |t.threads| && t.threads[i].pc.Idle? && s.n <= t.n && Follows(c, s, es, i, multiset(s.live), multiset{})
    ensures forall m :: Own(m, End(c, s, es).threads[i]) == Own(m, s.threads[i])
    decreases |es|
  {
    hide Inv, Step, Own;
    if |es| > 0 {
      ContinuesRest(es, i);
      if Actor(es[0]) == i { NotIdle(c, s, es[0], i); }
      OtherStep(c, s, es[0], i);
      StepKeeps(c, s, es[0]);
      IdleRun(c, Step(c, s, es[0]), es[1..], i);
      FollowsOther(c, s, es, i, multiset{});
    }
  }

  lemma NotIdle(c: Config, s: State, e: Event, i: nat)
    requires Enabled(c, s, e) && Actor(e) == i && !Starts(e)
    ensures i < |s.threads| && !s.threads[i].pc.Idle?
  {
  }

  lemma ContinuesRest(es: seq<Event>, i: nat)
    requires Continues(es, i) && |es| > 0
    ensures Continues(es[1..], i) && (Actor(es[0]) == i ==> !Starts(es[0]))
  {
  }

  /** How far a call has got at the end of a run, `before` being what the callers hold without the
      block that is reallocated: still asking; served, with the other bytes of that block in the
      thread's hands; or given up for lack of capacity, that block back with its callers. */
  ghost predicate CallState(c: Config, s: State, es: seq<Event>, i: nat, before: multiset<Block>, request: nat, why: Purpose)
    requires Runs(c, s, es)
  {
    var t := End(c, s, es);
    && i < |t.threads|
    && ((Pending(t.threads[i], request, why) && Follows(c, s, es, i, before, multiset{}))
        || (t.threads[i].pc.Idle? && exists p: nat :: Follows(c, s, es, i, before, multiset{Block(p, request)}) && TakenOver(t.threads[i], why, p, request))
        || (t.threads[i].pc.Idle? && t.n + request > c.cap && Follows(c, s, es, i, before, multiset(Returned(why)))))
  }

  /** A call that has asked the pool, over every interleaving. */
  lemma {:induction false} PendingRun(c: Config, s: State, es: seq<Event>, i: nat, request: nat, why: Purpose)
    requires Inv(c, s) && Runs(c, s, es) && i < |s.threads| && Pending(s.threads[i], request, why) && Continues(es, i)
    ensures CallState(c, s, es, i, multiset(s.live), request, why)
    decreases |es|
  {
    hide Inv, Step, Own, TakenOver, Enabled;
    if |es| == 0 {
      assert multiset(s.live) + multiset{} == multiset(s.live) + multiset{} + multiset{};
    } else {
      hide Follows;
      var e, s1 := es[0], Step(c, s, es[0]);
      StepKeeps(c, s, e);
      ContinuesRest(es, i);
      if Actor(e) != i {
        OtherStep(c, s, e, i);
        PendingRun(c, s1, es[1..], i, request, why);
        forall gain | Follows(c, s1, es[1..], i, multiset(s1.live), gain) ensures Follows(c, s, es, i, multiset(s.live), gain) { FollowsOther(c, s, es, i, gain); }
      } else {
        PendingOwn(c, s, es, i, request, why);
      }
    }
  }

  /** A step of the call that changes nothing for its callers. */
  lemma CallLater(c: Config, s: State, es: seq<Event>, i: nat, before: multiset<Block>, request: nat, why: Purpose)
    requires Runs(c, s, es) && |es| > 0 && Actor(es[0]) == i && CallState(c, Step(c, s, es[0]), es[1..], i, before, request, why)
    ensures CallState(c, s, es, i, before, request, why)
  {
    hide Inv, Step, Own, Follows, TakenOver, Enabled;
    forall gain | Follows(c, Step(c, s, es[0]), es[1..], i, before, gain) ensures Follows(c, s, es, i, before, gain) { FollowsOwn(c, s, es, i, before, gain); }
  }

  /** A step of the call that serves it. */
  lemma CallServed(c: Config, s: State, es: seq<Event>, i: nat, before: multiset<Block>, request: nat, why: Purpose, p: nat)
    requires Runs(c, s, es) && |es| > 0 && Actor(es[0]) == i && Inv(c, Step(c, s, es[0])) && Continues(es[1..], i)
    requires var s1 := Step(c, s, es[0]); i < |s1.threads| && s1.threads[i].pc.Idle? && multiset(s1.live) == before + multiset{Block(p, request)} && TakenOver(s1.threads[i], why, p, request)
    ensures CallState(c, s, es, i, before, request, why)
  {
    hide Inv, Step, Own, Follows, TakenOver, Enabled;
    var s1, rest := Step(c, s, es[0]), es[1..];
    IdleRun(c, s1, rest, i);
    Shifted(c, s1, rest, i, before, multiset{Block(p, request)});
    FollowsOwn(c, s, es, i, before, multiset{Block(p, request)});
    StillTaken(s1.threads[i], End(c, s1, rest).threads[i], why, p, request);
  }

  /** A step of the call that gives up. */
  lemma CallFailed(c: Config, s: State, es: seq<Event>, i: nat, before: multiset<Block>, request: nat, why: Purpose)
    requires Runs(c, s, es) && |es| > 0 && Actor(es[0]) == i && Inv(c, Step(c, s, es[0])) && Continues(es[1..], i)
    requires var s1 := Step(c, s, es[0]); i < |s1.threads| && s1.threads[i].pc.Idle? && multiset(s1.live) == before + multiset(Returned(why)) && s1.n + request > c.cap
    ensures CallState(c, s, es, i, before, request, why)
  {
    hide Inv, Step, Own, Follows, TakenOver, Enabled;
    var s1, rest := Step(c, s, es[0]), es[1..];
    IdleRun(c, s1, rest, i);
    Shifted(c, s1, rest, i, before, multiset(Returned(why)));
    FollowsOwn(c, s, es, i, before, multiset(Returned(why)));
  }

  lemma {:induction false} PendingOwn(c: Config, s: State, es: seq<Event>, i: nat, request: nat, why: Purpose)
    requires Inv(c, s) && Runs(c, s, es) && i < |s.threads| && Pending(s.threads[i], request, why) && Continues(es, i)
    requires |es| > 0 && Actor(es[0]) == i && !Starts(es[0])
    ensures CallState(c, s, es, i, multiset(s.live), request, why)
    decreases |es|, 0
  {
    hide Inv, Step, Own, Follows, TakenOver, Enabled, CallState, Returned;
    var e, s1, before := es[0], Step(c, s, es[0]), multiset(s.live);
    StepKeeps(c, s, e);
    ContinuesRest(es, i);
    if e.Load? && s.n + request > c.cap {
      LoadStep(c, s, i);
      LiveMore(s.live, Returned(why), s1.live);
      CallFailed(c, s, es, i, before, request, why);
    } else if e.Again? {
      var p := AgainStep(c, s, i);
      LiveMore(s.live, [Block(p, request)], s1.live);
      CallServed(c, s, es, i, before, request, why, p);
    } else {
      if e.Load? { LoadStep(c, s, i); } else { MiddleStep(c, s, e, i); }
      PendingRun(c, s1, es[1..], i, request, why);
      CallLater(c, s, es, i, before, request, why);
    }
  }

  lemma LiveMore(live: seq<Block>, more: seq<Block>, live': seq<Block>)
    requires live' == live + more
    ensures multiset(live') == multiset(live) + multiset(more)
  {
  }

  lemma LiveLess(live: seq<Block>, k: nat)
    requires k < |live|
    ensures multiset(Without(live, k)) == multiset(live) - multiset{live[k]}
  {
    assert live == live[..k] + [live[k]] + live[k+1..];
  }

  lemma StillTaken(th: Thread, th': Thread, why: Purpose, p: nat, request: nat)
    requires TakenOver(th, why, p, request) && forall m :: Own(m, th') == Own(m, th)
    ensures TakenOver(th', why, p, request)
  {
    hide Own;
  }

  /** A whole allocation: in the end the callers have one more block of the requested length, or
      what they had, because the capacity is used up. */
  lemma AllocateCall(c: Config, s: State, i: nat, request: nat, es: seq<Event>)
    requires Inv(c, s) && Enabled(c, s, Allocate(i, request)) && Runs(c, Step(c, s, Allocate(i, request)), es) && Continues(es, i)
    ensures var all := [Allocate(i, request)] + es; Runs(c, s, all) && CallState(c, s, all, i, multiset(s.live), request, ForAlloc)
  {
    hide Inv, Step, Own, Follows, TakenOver, Enabled, CallState;
    var e := Allocate(i, request);
    var all, s1 := [e] + es, Step(c, s, e);
    assert all[0] == e && all[1..] == es;
    StepKeeps(c, s, e);
    var p := AllocateStep(c, s, i, request);
    if Served(s, s1, i, request, p) {
      LiveMore(s.live, [Block(p, request)], s1.live);
      NothingTaken(s1.threads[i], p, request);
      CallServed(c, s, all, i, multiset(s.live), request, ForAlloc, p);
    } else {
      PendingRun(c, s1, es, i, request, ForAlloc);
      CallLater(c, s, all, i, multiset(s.live), request, ForAlloc);
    }
  }

  lemma NothingTaken(th: Thread, p: nat, request: nat)
    ensures TakenOver(th, ForAlloc, p, request)
  {
  }

  /** A whole reallocation: in the end the old block is replaced by one of the new length and its
      other bytes are the thread's, or it is back with its callers, because the capacity is used
      up. */
  lemma ReallocCall(c: Config, s: State, i: nat, k: nat, newlen: nat, es: seq<Event>)
    requires Inv(c, s) && Enabled(c, s, Realloc(i, k, newlen)) && Runs(c, Step(c, s, Realloc(i, k, newlen)), es) && Continues(es, i)
    ensures var all := [Realloc(i, k, newlen)] + es;
            Runs(c, s, all) && CallState(c, s, all, i, multiset(s.live) - multiset{s.live[k]}, newlen, ForRealloc(s.live[k]))
  {
    hide Inv, Step, Own, Follows, TakenOver, CallState;
    var e, b := Realloc(i, k, newlen), s.live[k];
    var all, s1, before := [e] + es, Step(c, s, e), multiset(s.live) - multiset{b};
    assert all[0] == e && all[1..] == es;
    StepKeeps(c, s, e);
    var p := ReallocStep(c, s, i, k, newlen);
    LiveLess(s.live, k);
    if s1.threads[i].pc.Idle? {
      LiveMore(Without(s.live, k), [Block(p, newlen)], s1.live);
      CallServed(c, s, all, i, before, newlen, ForRealloc(b), p);
    } else {
      PendingRun(c, s1, es, i, newlen, ForRealloc(b));
      CallLater(c, s, all, i, before, newlen, ForRealloc(b));
    }
  }

  // ------------------------------------------------------------- calls left alone

  /** Steps of thread `i` that continue its call. */
  ghost predicate OnlyOwn(es: seq<Event>, i: nat)
  {
    forall j :: 0 <= j < |es| ==> Actor(es[j]) == i && !Starts(es[j])
  }

  lemma RunFirst(c: Config, s: State, e: Event, rest: seq<Event>)
    requires Inv(c, s) && Enabled(c, s, e) && Runs(c, Step(c, s, e), rest)
    ensures Runs(c, s, [e] + rest) && End(c, s, [e] + rest) == End(c, Step(c, s, e), rest)
  {
    hide Inv, Enabled, Step;
    var es := [e] + rest;
    assert es[0] == e && es[1..] == rest;
  }

  /** A thread that has asked the pool and is left alone is served after four steps if the request
      fits into what is left of the capacity, and gives up at its next step otherwise. */
  lemma AskingAlone(c: Config, s: State, i: nat) returns (es: seq<Event>, p: nat)
    requires Inv(c, s) && i < |s.threads| && s.threads[i].pc.NeedChunk?
    ensures Runs(c, s, es) && OnlyOwn(es, i) && i < |End(c, s, es).threads|
    ensures var t, r, w := End(c, s, es), s.threads[i].pc.request, s.threads[i].pc.why;
            if s.n + r <= c.cap then |es| == 4 && Served(s, t, i, r, p) && TakenOver(t.threads[i], w, p, r)
            else |es| == 1 && t.threads[i].pc.Idle? && t.live == s.live + Returned(w)
  {
    hide Inv, Step, TakenOver, Returned;
    LoadStep(c, s, i);
    StepKeeps(c, s, Load(i));
    var s1 := Step(c, s, Load(i));
    if s.n + s.threads[i].pc.request <= c.cap {
      MiddleStep(c, s1, Swap(i, false), i);
      StepKeeps(c, s1, Swap(i, false));
      var s2 := Step(c, s1, Swap(i, false));
      MiddleStep(c, s2, Install(i), i);
      StepKeeps(c, s2, Install(i));
      var s3 := Step(c, s2, Install(i));
      p := AgainStep(c, s3, i);
      RunFirst(c, s3, Again(i), []);
      RunFirst(c, s2, Install(i), [Again(i)]);
      RunFirst(c, s1, Swap(i, false), [Install(i)] + [Again(i)]);
      es := [Load(i)] + ([Swap(i, false)] + ([Install(i)] + [Again(i)]));
      RunFirst(c, s, Load(i), [Swap(i, false)] + ([Install(i)] + [Again(i)]));
    } else {
      es, p := [Load(i)] + [], 0;
      RunFirst(c, s, Load(i), []);
    }
  }

  /** An allocation left alone succeeds if the thread can serve it or the capacity suffices, and
      otherwise changes nothing for the callers. */
  lemma AllocateAlone(c: Config, s: State, i: nat, request: nat) returns (es: seq<Event>, p: nat)
    requires Inv(c, s) && Enabled(c, s, Allocate(i, request))
    ensures Runs(c, s, [Allocate(i, request)] + es) && OnlyOwn(es, i) && |es| <= 4 && i < |End(c, s, [Allocate(i, request)] + es).threads|
    ensures var t := End(c, s, [Allocate(i, request)] + es);
            if s.n + request <= c.cap || Alloc(c, s.threads[i].cache, request).pos != NoPos then Served(s, t, i, request, p)
            else t.threads[i].pc.Idle? && t.live == s.live
  {
    hide Inv, Step, Enabled, Alloc;
    var e := Allocate(i, request);
    var s1 := Step(c, s, e);
    StepKeeps(c, s, e);
    p := AllocateStep(c, s, i, request);
    es := [];
    if Served(s, s1, i, request, p) {
      RunFirst(c, s, e, []);
    } else {
      es, p := AskingAlone(c, s1, i);
      RunFirst(c, s, e, es);
    }
  }

  /** A reallocation left alone: always served if the capacity suffices; a shorter or equal length
      never fails. */
  lemma ReallocAlone(c: Config, s: State, i: nat, k: nat, newlen: nat) returns (es: seq<Event>, p: nat)
    requires Inv(c, s) && Enabled(c, s, Realloc(i, k, newlen))
    ensures Runs(c, s, [Realloc(i, k, newlen)] + es) && OnlyOwn(es, i) && |es| <= 4 && i < |End(c, s, [Realloc(i, k, newlen)] + es).threads| && k < |s.live|
    ensures var t, b := End(c, s, [Realloc(i, k, newlen)] + es), s.live[k];
            if s.n + newlen <= c.cap || newlen <= b.len || Alloc3(c, s.threads[i].cache, b, newlen).pos != NoPos
            then Served(s.(live := Without(s.live, k)), t, i, newlen, p) && TakenOver(t.threads[i], ForRealloc(b), p, newlen)
            else t.threads[i].pc.Idle? && t.live == Without(s.live, k) + [b]
  {
    hide Inv, Step, Alloc3, TakenOver;
    var e := Realloc(i, k, newlen);
    var s1 := Step(c, s, e);
    StepKeeps(c, s, e);
    p := ReallocStep(c, s, i, k, newlen);
    es := [];
    if s1.threads[i].pc.Idle? {
      RunFirst(c, s, e, []);
    } else {
      es, p := AskingAlone(c, s1, i);
      RunFirst(c, s, e, es);
    }
  }
}
