/** The bookkeeping both clients share: which closures wait for an answer, which handlers are running, which calls
    were made. One conservation law covers all of it, and the steps of either client keep it. */
module Clients {
  import opened Basics
  import opened Responses
  import opened Registry

  /** What the user's thread is inside, innermost last: a tick, or the handler of one answer. */
  datatype Frame = Ticking | Handling(closure: Closure)

  ghost function FrameBag(stack: seq<Frame>): multiset<Closure> {
    if stack == [] then multiset{}
    else FrameBag(ButLast(stack)) + if Last(stack).Handling? then multiset{Last(stack).closure} else multiset{}
  }

  lemma FrameBagAppend(stack: seq<Frame>, f: Frame)
    ensures FrameBag(stack + [f]) == if f.Handling? then FrameBag(stack) + multiset{f.closure} else FrameBag(stack)
  {
    assert ButLast(stack + [f]) == stack;
  }

  /** How often each allocation's handler has been called. */
  ghost function CallBag(calls: seq<Call>): multiset<nat> {
    if calls == [] then multiset{}
    else CallBag(ButLast(calls)) + if Last(calls).Handled? then multiset{Last(calls).serial} else multiset{}
  }

  lemma CallBagAppend(calls: seq<Call>, call: Call)
    requires call.Handled?
    ensures CallBag(calls + [call]) == CallBag(calls) + multiset{call.serial}
  {
    assert ButLast(calls + [call]) == calls;
  }

  /** Closures waiting for their answer, None standing for requests without a callback. */
  type Waiting = multiset<Option<Closure>>

  ghost function Allocation(r: Registry, k: nat): Closure
    requires k < |r.home|
  {
    Closure(r.home[k], k)
  }

  /** How often allocation k counts as freed, as running its handler, as waiting, and as never sent. */
  ghost function Places(r: Registry, w: Waiting, frames: multiset<Closure>, unsent: set<nat>, k: nat): nat
    requires k < |r.home|
  {
    multiset(r.freed)[k] + frames[Allocation(r, k)] + w[Some(Allocation(r, k))] + if k in unsent then 1 else 0
  }

  /** Every context ever allocated is in exactly one of the four places, and its handler has been called once if it
      is freed or running and not at all otherwise. */
  ghost predicate Conserved(r: Registry, w: Waiting, frames: multiset<Closure>, unsent: set<nat>, calls: seq<Call>) {
    forall k | 0 <= k < |r.home| ::
      && Places(r, w, frames, unsent, k) == 1
      && CallBag(calls)[k] == multiset(r.freed)[k] + frames[Allocation(r, k)]
  }

  ghost predicate AllHeld(r: Registry, w: Waiting, frames: multiset<Closure>) {
    && (forall c | Some(c) in w :: Holds(r, c))
    && (forall c | c in frames :: Holds(r, c))
  }

  /** No call ever missed its context, and none was made twice. */
  ghost predicate CallsOk(r: Registry, calls: seq<Call>) {
    && (forall call | call in calls :: call.Handled? && call.serial < |r.home|)
    && (forall k :: CallBag(calls)[k] <= if k < |r.home| then 1 else 0)
  }

  ghost predicate Consistent(r: Registry, w: Waiting, frames: multiset<Closure>, unsent: set<nat>, calls: seq<Call>) {
    && Sound(r)
    && AllHeld(r, w, frames)
    && Conserved(r, w, frames, unsent, calls)
    && CallsOk(r, calls)
    && (forall k | k in unsent :: k < |r.home|)
  }

  // ---- the steps ----------------------------------------------------------------------------------------------

  ghost predicate SameClosures(w: Waiting, w': Waiting) {
    forall c: Closure :: w[Some(c)] == w'[Some(c)]
  }

  lemma SameClosuresConsistent(r: Registry, w: Waiting, w': Waiting, frames: multiset<Closure>, unsent: set<nat>,
                               calls: seq<Call>)
    requires Consistent(r, w, frames, unsent, calls) && SameClosures(w, w')
    ensures Consistent(r, w', frames, unsent, calls)
  {
    assert forall k | 0 <= k < |r.home| :: Places(r, w', frames, unsent, k) == Places(r, w, frames, unsent, k);
    forall c | Some(c) in w'
      ensures Holds(r, c)
    {
      assert w[Some(c)] == w'[Some(c)];
    }
  }

  /** A waiting closure is the allocation it names, uncalled, not running and not freed. */
  lemma WaitingClosure(r: Registry, w: Waiting, frames: multiset<Closure>, unsent: set<nat>, calls: seq<Call>,
                       c: Closure)
    requires Consistent(r, w, frames, unsent, calls) && Some(c) in w
    ensures Holds(r, c) && c.serial < |r.home| && c == Allocation(r, c.serial)
    ensures w[Some(c)] == 1 && frames[c] == 0 && CallBag(calls)[c.serial] == 0
    ensures c.serial !in unsent && c.serial !in r.freed
  {
    assert c == Allocation(r, c.serial);
    assert Places(r, w, frames, unsent, c.serial) == 1;
  }

  lemma RunningClosure(r: Registry, w: Waiting, frames: multiset<Closure>, unsent: set<nat>, calls: seq<Call>,
                       c: Closure)
    requires Consistent(r, w, frames, unsent, calls) && c in frames
    ensures Holds(r, c) && c.serial < |r.home| && c == Allocation(r, c.serial)
    ensures w[Some(c)] == 0 && frames[c] == 1 && CallBag(calls)[c.serial] == 1
    ensures c.serial !in unsent && c.serial !in r.freed
  {
    assert c == Allocation(r, c.serial);
    assert Places(r, w, frames, unsent, c.serial) == 1;
  }

  lemma NewConserves(r: Registry, w: Waiting, frames: multiset<Closure>, unsent: set<nat>, calls: seq<Call>,
                     ptr: Ptr, spec: RequestSpec)
    requires Consistent(r, w, frames, unsent, calls)
    ensures Conserved(Allocate(r, ptr, spec), w + multiset{Some(Closure(ptr, |r.home|))}, frames, unsent, calls)
  {
    var n := |r.home|;
    var r' := Allocate(r, ptr, spec);
    var w' := w + multiset{Some(Closure(ptr, n))};
    forall k | 0 <= k < |r'.home|
      ensures Places(r', w', frames, unsent, k) == 1
      ensures CallBag(calls)[k] == multiset(r'.freed)[k] + frames[Allocation(r', k)]
    {
      if k < n {
        assert Allocation(r', k) == Allocation(r, k);
        assert Places(r, w, frames, unsent, k) == 1;
      } else {
        assert k !in r.freed && Closure(ptr, n) !in frames && Some(Closure(ptr, n)) !in w;
      }
    }
  }

  /** createReqContext: the new context is waiting. */
  lemma NewConsistent(r: Registry, w: Waiting, frames: multiset<Closure>, unsent: set<nat>, calls: seq<Call>,
                      ptr: Ptr, spec: RequestSpec)
    requires Consistent(r, w, frames, unsent, calls) && ptr !in r.live
    ensures Consistent(Allocate(r, ptr, spec), w + multiset{Some(Closure(ptr, |r.home|))}, frames, unsent, calls)
  {
    NewConserves(r, w, frames, unsent, calls, ptr, spec);
    hide Conserved;
    AllocateSound(r, ptr, spec);
  }

  /** An API method gives up before sending: the context waits for nothing any more. */
  lemma ThrowConsistent(r: Registry, w: Waiting, frames: multiset<Closure>, unsent: set<nat>, calls: seq<Call>,
                        c: Closure)
    requires Consistent(r, w, frames, unsent, calls) && Some(c) in w
    ensures Consistent(r, w - multiset{Some(c)}, frames, unsent + {c.serial}, calls)
  {
    WaitingClosure(r, w, frames, unsent, calls, c);
    hide Sound, CallBag;
    var w' := w - multiset{Some(c)};
    forall k | 0 <= k < |r.home|
      ensures Places(r, w', frames, unsent + {c.serial}, k) == 1
    {
      assert Places(r, w, frames, unsent, k) == 1;
    }
  }

  lemma CallConserves(r: Registry, w: Waiting, frames: multiset<Closure>, unsent: set<nat>, calls: seq<Call>,
                      c: Closure, call: Call)
    requires Conserved(r, w, frames, unsent, calls) && Some(c) in w
    requires c.serial < |r.home| && c == Allocation(r, c.serial)
    requires call.Handled? && call.serial == c.serial
    ensures Conserved(r, w - multiset{Some(c)}, frames + multiset{c}, unsent, calls + [call])
  {
    CallBagAppend(calls, call);
    forall k | 0 <= k < |r.home|
      ensures Places(r, w - multiset{Some(c)}, frames + multiset{c}, unsent, k) == 1
      ensures CallBag(calls + [call])[k] == multiset(r.freed)[k] + (frames + multiset{c})[Allocation(r, k)]
    {
      assert Places(r, w, frames, unsent, k) == 1;
    }
  }

  lemma CallCounts(r: Registry, calls: seq<Call>, call: Call)
    requires CallsOk(r, calls) && call.Handled? && call.serial < |r.home| && CallBag(calls)[call.serial] == 0
    ensures CallsOk(r, calls + [call])
  {
    CallBagAppend(calls, call);
  }

  /** onResponse calls the handler of a waiting context. */
  lemma CallConsistent(r: Registry, w: Waiting, frames: multiset<Closure>, unsent: set<nat>, calls: seq<Call>,
                       c: Closure, call: Call)
    requires Consistent(r, w, frames, unsent, calls) && Some(c) in w
    requires call.Handled? && call.serial == c.serial
    ensures Consistent(r, w - multiset{Some(c)}, frames + multiset{c}, unsent, calls + [call])
  {
    WaitingClosure(r, w, frames, unsent, calls, c);
    CallConserves(r, w, frames, unsent, calls, c, call);
    CallCounts(r, calls, call);
    hide Conserved, CallsOk, Sound;
  }

  lemma ReturnConserves(r: Registry, w: Waiting, frames: multiset<Closure>, unsent: set<nat>, calls: seq<Call>,
                        c: Closure, r': Registry)
    requires Conserved(r, w, frames, unsent, calls) && c in frames
    requires c.serial < |r.home| && c == Allocation(r, c.serial)
    requires r'.home == r.home && r'.freed == r.freed + [c.serial]
    ensures Conserved(r', w, frames - multiset{c}, unsent, calls)
  {
    forall k | 0 <= k < |r.home|
      ensures Places(r', w, frames - multiset{c}, unsent, k) == 1
      ensures CallBag(calls)[k] == multiset(r'.freed)[k] + (frames - multiset{c})[Allocation(r', k)]
    {
      assert Allocation(r', k) == Allocation(r, k);
      assert Places(r, w, frames, unsent, k) == 1;
    }
  }

  /** The handler returns: its context, and no other, is deleted and unregistered. */
  lemma ReturnConsistent(r: Registry, w: Waiting, frames: multiset<Closure>, unsent: set<nat>, calls: seq<Call>,
                         c: Closure)
    requires Consistent(r, w, frames, unsent, calls) && c in frames
    ensures Consistent(Release(r, c.ptr), w, frames - multiset{c}, unsent, calls)
  {
    RunningClosure(r, w, frames, unsent, calls, c);
    ReleaseSound(r, c);
    ReturnConserves(r, w, frames, unsent, calls, c, Release(r, c.ptr));
    hide Conserved, Sound;
  }

  /** From r to r' exactly the context c was erased and deleted, and every other context, old or new, is either
      answered and deleted or still registered at its own address. */
  ghost predicate ErasedOnly(r: Registry, r': Registry, c: Closure, calls: seq<Call>) {
    && c.ptr in r.contexts
    && r'.contexts == r.contexts - {c.ptr}
    && r'.freed == r.freed + [c.serial]
    && r'.home == r.home
    && forall k | 0 <= k < |r'.home| ::
         if k in r'.freed then CallBag(calls)[k] == 1 else r'.home[k] in r'.contexts && Holds(r', Allocation(r', k))
  }

  lemma Accounted(r: Registry, w: Waiting, frames: multiset<Closure>, unsent: set<nat>, calls: seq<Call>)
    requires Consistent(r, w, frames, unsent, calls)
    ensures forall k | 0 <= k < |r.home| ::
              if k in r.freed then CallBag(calls)[k] == 1 else r.home[k] in r.contexts && Holds(r, Allocation(r, k))
  {
    forall k | 0 <= k < |r.home|
      ensures k in r.freed ==> CallBag(calls)[k] == 1
    {
      assert Places(r, w, frames, unsent, k) == 1;
    }
  }

  lemma ReturnErases(r: Registry, w: Waiting, frames: multiset<Closure>, unsent: set<nat>, calls: seq<Call>,
                     c: Closure)
    requires Consistent(r, w, frames, unsent, calls) && c in frames
    ensures ErasedOnly(r, Release(r, c.ptr), c, calls)
  {
    RunningClosure(r, w, frames, unsent, calls, c);
    ReleaseSound(r, c);
    ReturnConsistent(r, w, frames, unsent, calls, c);
    Accounted(Release(r, c.ptr), w, frames - multiset{c}, unsent, calls);
    hide Consistent, Holds, CallBag;
  }

  /** The lookup of a waiting or running closure finds the context it was made for. */
  lemma LookupFinds(r: Registry, c: Closure, hasDefault: bool, v: Verdict)
    requires Sound(r) && Holds(r, c)
    ensures c.serial < |r.specs|
    ensures Lookup(r, c.ptr, hasDefault, v) == Handled(c.serial, Invoke(r.specs[c.serial], hasDefault, v))
  {
  }
}
