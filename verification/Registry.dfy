/** The request contexts a client allocates: the heap blocks, the client's set `_reqContexts`, and the ledger of
    what was allocated and freed. Addresses are reused freely; serial numbers tell allocations apart. */
module Registry {
  import opened Basics
  import opened Responses

  type Ptr = nat

  /** What a transport callback captures: the raw context pointer. The serial is the allocation it meant. */
  datatype Closure = Closure(ptr: Ptr, serial: nat)

  datatype Block = Block(serial: nat, spec: RequestSpec)

  /** `home` and `specs` record, by serial, where each context was allocated and what its caller asked for;
      `freed` lists the serials deleted so far and `faults` counts deletes of a dead pointer. */
  datatype Registry = Registry(
    live: map<Ptr, Block>,
    contexts: set<Ptr>,
    home: seq<Ptr>,
    specs: seq<RequestSpec>,
    freed: seq<nat>,
    faults: nat)

  const EMPTY := Registry(map[], {}, [], [], [], 0)

  /** `new` at an address that is not in use, followed by `_reqContexts.emplace`. */
  function Allocate(r: Registry, ptr: Ptr, spec: RequestSpec): Registry {
    r.(live := r.live[ptr := Block(|r.home|, spec)],
       contexts := r.contexts + {ptr},
       home := r.home + [ptr],
       specs := r.specs + [spec])
  }

  /** `delete` followed by `_reqContexts.erase`. */
  function Release(r: Registry, ptr: Ptr): Registry {
    if ptr in r.live
    then r.(live := r.live - {ptr}, contexts := r.contexts - {ptr}, freed := r.freed + [r.live[ptr].serial])
    else r.(contexts := r.contexts - {ptr}, faults := r.faults + 1)
  }

  /** The address `new` returns: the one proposed, or the next above it that is not in use. */
  function Unused(proposed: Ptr, inUse: set<Ptr>): (ptr: Ptr)
    ensures proposed <= ptr && ptr !in inUse
    ensures proposed !in inUse ==> ptr == proposed
    decreases inUse
  {
    if proposed in inUse then Unused(proposed + 1, inUse - {proposed}) else proposed
  }

  predicate IsLeast(m: Ptr, s: set<Ptr>) {
    m in s && forall x | x in s :: m <= x
  }

  lemma {:induction false} HasLeast(s: set<Ptr>)
    requires s != {}
    ensures exists m :: IsLeast(m, s)
    decreases s
  {
    var m :| m in s;
    var rest := s - {m};
    assert s == rest + {m};
    if rest == {} {
      assert IsLeast(m, s);
    } else {
      HasLeast(rest);
      var k :| IsLeast(k, rest);
      assert IsLeast(if k < m then k else m, rest + {m});
    }
  }

  /** The first element of a `std::set` of pointers. */
  function First(s: set<Ptr>): (m: Ptr)
    requires s != {}
    ensures IsLeast(m, s)
  {
    HasLeast(s);
    var m :| IsLeast(m, s);
    m
  }

  /** The destructor's loop: deletes every registered context, in address order. */
  function ReleaseAll(r: Registry): Registry
    decreases r.contexts
  {
    if r.contexts == {} then r else ReleaseAll(Release(r, First(r.contexts)))
  }

  lemma {:induction false} ReleaseAllKeepsSpecs(r: Registry)
    ensures ReleaseAll(r).specs == r.specs
    decreases r.contexts
  {
    if r.contexts != {} {
      ReleaseAllKeepsSpecs(Release(r, First(r.contexts)));
    }
  }

  /** What a client does with one answer: the invocation it makes, the complaint that the context is unknown, or a
      read through a dead pointer. */
  datatype Call = Handled(serial: nat, invocation: Invocation) | UnknownContext | Dangling

  function Lookup(r: Registry, ptr: Ptr, hasDefault: bool, v: Verdict): Call {
    if ptr !in r.contexts then UnknownContext
    else if ptr !in r.live then Dangling
    else Handled(r.live[ptr].serial, Invoke(r.live[ptr].spec, hasDefault, v))
  }

  // ---- the ledger ---------------------------------------------------------------------------------------------

  ghost predicate Distinct(s: seq<nat>) {
    forall i, j | 0 <= i < j < |s| :: s[i] != s[j]
  }

  /** Every allocation is either alive at its home address or freed exactly once; the set lists the live ones. */
  ghost predicate Sound(r: Registry) {
    && r.contexts == r.live.Keys
    && |r.specs| == |r.home|
    && (forall p | p in r.live ::
          && r.live[p].serial < |r.home|
          && r.home[r.live[p].serial] == p
          && r.specs[r.live[p].serial] == r.live[p].spec
          && r.live[p].serial !in r.freed)
    && (forall k | 0 <= k < |r.home| :: k in r.freed || (r.home[k] in r.live && r.live[r.home[k]].serial == k))
    && (forall k | k in r.freed :: k < |r.home|)
    && Distinct(r.freed)
    && r.faults == 0
  }

  /** The pointer still means the allocation it was captured for. */
  ghost predicate Holds(r: Registry, c: Closure) {
    c.ptr in r.live && r.live[c.ptr].serial == c.serial
  }

  lemma AllocateSound(r: Registry, ptr: Ptr, spec: RequestSpec)
    requires Sound(r) && ptr !in r.live
    ensures Sound(Allocate(r, ptr, spec))
    ensures Holds(Allocate(r, ptr, spec), Closure(ptr, |r.home|))
    ensures forall c | Holds(r, c) :: Holds(Allocate(r, ptr, spec), c) && c.serial != |r.home|
  {
  }

  /** Deleting a context that is held frees that allocation and no other, and unregisters that pointer and no
      other. */
  lemma ReleaseSound(r: Registry, c: Closure)
    requires Sound(r) && Holds(r, c)
    ensures Sound(Release(r, c.ptr))
    ensures Release(r, c.ptr).freed == r.freed + [c.serial]
    ensures Release(r, c.ptr).contexts == r.contexts - {c.ptr}
    ensures forall d | Holds(r, d) && d != c :: Holds(Release(r, c.ptr), d)
  {
  }

  lemma {:induction false} ReleaseAllSound(r: Registry)
    requires Sound(r)
    ensures Sound(ReleaseAll(r))
    ensures ReleaseAll(r).live == map[] && ReleaseAll(r).contexts == {}
    ensures ReleaseAll(r).home == r.home && ReleaseAll(r).specs == r.specs
    decreases r.contexts
  {
    if r.contexts != {} {
      var p := First(r.contexts);
      ReleaseSound(r, Closure(p, r.live[p].serial));
      ReleaseAllSound(Release(r, p));
    }
  }

  /** With nothing alive, the ledger of frees lists every allocation exactly once. */
  lemma EmptyMeansAllFreedOnce(r: Registry, k: nat)
    requires Sound(r) && r.live == map[]
    ensures multiset(r.freed)[k] == if k < |r.home| then 1 else 0
  {
    if k in r.freed {
      var i :| 0 <= i < |r.freed| && r.freed[i] == k;
      RemoveAtBag(r.freed, i);
      assert k !in RemoveAt(r.freed, i);
    }
  }
}
