/** Counting the callbacks that the transport's lists hold. */
module Holders {
  import opened Basics
  import opened Responses
  import opened Registry
  import T = Transport

  function Callbacks(s: seq<T.ReqContext<Closure>>): (c: seq<Option<Closure>>)
    ensures |c| == |s|
  {
    seq(|s|, i requires 0 <= i < |s| => s[i].callback)
  }

  /** The callbacks stored in a list of the transport; contexts without one count under None. */
  ghost function CallbackBag(s: seq<T.ReqContext<Closure>>): multiset<Option<Closure>> {
    multiset(Callbacks(s))
  }

  lemma CallbackBagAppend(s: seq<T.ReqContext<Closure>>, e: T.ReqContext<Closure>)
    ensures CallbackBag(s + [e]) == CallbackBag(s) + multiset{e.callback}
  {
    assert Callbacks(s + [e]) == Callbacks(s) + [e.callback];
  }

  lemma CallbackBagRemoveAt(s: seq<T.ReqContext<Closure>>, k: nat)
    requires k < |s|
    ensures CallbackBag(s) == CallbackBag(RemoveAt(s, k)) + multiset{s[k].callback}
  {
    RemoveAtBag(Callbacks(s), k);
    assert RemoveAt(Callbacks(s), k) == Callbacks(RemoveAt(s, k));
  }

  lemma CallbackBagHead(s: seq<T.ReqContext<Closure>>)
    requires s != []
    ensures CallbackBag(s) == CallbackBag(s[1..]) + multiset{s[0].callback}
  {
    assert Callbacks(s) == [s[0].callback] + Callbacks(s[1..]);
  }

  /** Storing a callback in the last entry. */
  lemma CallbackBagSetLast(s: seq<T.ReqContext<Closure>>, e: T.ReqContext<Closure>)
    requires s != []
    ensures CallbackBag(s) + multiset{e.callback} == CallbackBag(s[|s| - 1 := e]) + multiset{Last(s).callback}
  {
    CallbackBagAppend(ButLast(s), e);
    CallbackBagAppend(ButLast(s), Last(s));
    assert s[|s| - 1 := e] == ButLast(s) + [e];
    assert s == ButLast(s) + [Last(s)];
  }
}
