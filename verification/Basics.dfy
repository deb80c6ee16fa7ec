/** Small vocabulary shared by every module: optional values, list surgery and counting in bags. */
module Basics {

  datatype Option<+T> = None | Some(value: T)

  function Last<T>(s: seq<T>): T
    requires s != []
  {
    s[|s| - 1]
  }

  function ButLast<T>(s: seq<T>): seq<T>
    requires s != []
  {
    s[..|s| - 1]
  }

  /** `list::erase` at a position. */
  function RemoveAt<T>(s: seq<T>, k: nat): seq<T>
    requires k < |s|
  {
    s[..k] + s[k + 1..]
  }

  lemma RemoveAtBag<T>(s: seq<T>, k: nat)
    requires k < |s|
    ensures multiset(s) == multiset(RemoveAt(s, k)) + multiset{s[k]}
  {
    assert s == s[..k] + ([s[k]] + s[k + 1..]);
  }

  /** Taking out an element other than the last one. */
  lemma RemoveAtFront<T>(s: seq<T>, k: nat)
    requires k < |s| - 1
    ensures RemoveAt(s, k) == RemoveAt(ButLast(s), k) + [Last(s)]
    ensures ButLast(s)[k] == s[k]
  {
  }

  lemma BagSums<T>(a: multiset<T>, b: multiset<T>, c: multiset<T>)
    ensures (a + b) + c == a + (b + c) == (a + c) + b
  {
  }

  /** Two positions holding one value count it twice. */
  lemma CountedTwice<T>(s: seq<T>, i: nat, j: nat)
    requires i < j < |s| && s[i] == s[j]
    ensures multiset(s)[s[i]] >= 2
  {
    RemoveAtBag(s, j);
    assert RemoveAt(s, j)[i] == s[i];
    assert s[i] in multiset(RemoveAt(s, j));
  }

  /** b continues a by fillers and nothing else. */
  ghost predicate PaddedBy<T>(a: seq<T>, b: seq<T>, filler: T) {
    a <= b && forall i | |a| <= i < |b| :: b[i] == filler
  }

  /** What was done between two moments was on the tape, fillers aside. */
  lemma FromTheTape<T>(before: seq<T>, shown: seq<T>, done: seq<T>, left: seq<T>, filler: T)
    requires before + shown == before + done + left || PaddedBy(before + shown, before + done + left, filler)
    ensures forall d | d in done :: d in shown || d == filler
  {
    var a, b := before + shown, before + done + left;
    forall d | d in done
      ensures d in shown || d == filler
    {
      var i :| 0 <= i < |done| && done[i] == d;
      var j := |before| + i;
      assert b[j] == d;
      assert j < |a| ==> a[j] == shown[i];
    }
  }
}
