/** The query arguments of RestClient's requests, a `std::multimap`, against the repeated fields GrpcClient sends. */
module QueryArgs {
  import opened Basics

  /** A multimap as its elements in iteration order. */
  type Args = seq<(string, string)>

  /** `std::string`'s order on keys. */
  predicate Less(a: string, b: string) {
    if b == [] then false
    else if a == [] then true
    else a[0] < b[0] || (a[0] == b[0] && Less(a[1..], b[1..]))
  }

  /** The strings agree up to k, where a ends or has the smaller character. */
  predicate SmallerAt(a: string, b: string, k: int) {
    0 <= k <= |a| && k < |b| && a[..k] == b[..k] && (k == |a| || a[k] < b[k])
  }

  lemma SameStart(a: string, b: string, k: int)
    requires SmallerAt(a, b, k)
    ensures k > 0 ==> a[0] == b[0]
  {
    assert k > 0 ==> a[..k][0] == b[..k][0];
  }

  /** Lexicographic order. */
  lemma {:induction false} LessIsLexicographic(a: string, b: string)
    ensures Less(a, b) <==> exists k :: SmallerAt(a, b, k)
    decreases |a|
  {
    if b == [] {
    } else if a == [] || a[0] != b[0] {
      assert Less(a, b) ==> SmallerAt(a, b, 0);
      forall k | SmallerAt(a, b, k)
        ensures k == 0
      {
        SameStart(a, b, k);
      }
    } else {
      LessIsLexicographic(a[1..], b[1..]);
      forall k | SmallerAt(a[1..], b[1..], k)
        ensures SmallerAt(a, b, k + 1)
      {
        assert a[..k + 1] == [a[0]] + a[1..][..k] && b[..k + 1] == [b[0]] + b[1..][..k];
      }
      forall k | SmallerAt(a, b, k)
        ensures SmallerAt(a[1..], b[1..], k - 1)
      {
        assert k > 0;
        assert a[1..][..k - 1] == a[..k][1..] && b[1..][..k - 1] == b[..k][1..];
      }
    }
  }

  lemma {:induction false} LessTotal(a: string, b: string)
    ensures Less(a, b) || Less(b, a) || a == b
    ensures !(Less(a, b) && Less(b, a)) && !Less(a, a)
    decreases |a|
  {
    if a != [] {
      LessTotal(a[1..], a[1..]);
      if b != [] {
        LessTotal(a[1..], b[1..]);
        assert a == [a[0]] + a[1..] && b == [b[0]] + b[1..];
      }
    }
  }

  lemma {:induction false} LessTrans(a: string, b: string, c: string)
    requires Less(a, b) && !Less(c, b)
    ensures Less(a, c)
    decreases |b|
  {
    if a != [] && c != [] && a[0] == b[0] == c[0] {
      LessTrans(a[1..], b[1..], c[1..]);
    }
  }

  ghost predicate Sorted(m: Args) {
    forall i, j | 0 <= i < j < |m| :: !Less(m[j].0, m[i].0)
  }

  /** `upper_bound`: the first element whose key is greater. */
  function UpperBound(m: Args, key: string): (k: nat)
    ensures k <= |m|
    ensures k < |m| ==> Less(key, m[k].0)
    ensures forall i | 0 <= i < k :: !Less(key, m[i].0)
  {
    if m == [] || Less(key, m[0].0) then 0 else 1 + UpperBound(m[1..], key)
  }

  /** `emplace` puts an element behind those with its key. */
  function Emplace(m: Args, key: string, value: string): (r: Args)
    ensures |r| == |m| + 1
  {
    var k := UpperBound(m, key);
    m[..k] + [(key, value)] + m[k..]
  }

  /** The values of one key, in iteration order. */
  function ValuesOf(m: Args, key: string): seq<string> {
    if m == [] then []
    else ValuesOf(ButLast(m), key) + if Last(m).0 == key then [Last(m).1] else []
  }

  lemma ValuesAppend(m: Args, e: (string, string), key: string)
    ensures ValuesOf(m + [e], key) == ValuesOf(m, key) + if e.0 == key then [e.1] else []
  {
    assert ButLast(m + [e]) == m;
  }

  lemma {:induction false} ValuesConcat(a: Args, b: Args, key: string)
    ensures ValuesOf(a + b, key) == ValuesOf(a, key) + ValuesOf(b, key)
    decreases |b|
  {
    if b == [] {
      assert a + b == a;
    } else {
      hide ValuesOf;
      var m, e := ButLast(b), Last(b);
      assert b == m + [e] && a + b == (a + m) + [e];
      ValuesConcat(a, m, key);
      ValuesAppend(m, e, key);
      ValuesAppend(a + m, e, key);
    }
  }

  lemma {:induction false} NoValues(m: Args, key: string)
    requires forall i | 0 <= i < |m| :: m[i].0 != key
    ensures ValuesOf(m, key) == []
    decreases |m|
  {
    if m != [] {
      NoValues(ButLast(m), key);
    }
  }

  lemma AllGreater(m: Args, key: string)
    requires Sorted(m)
    ensures forall i | UpperBound(m, key) <= i < |m| :: Less(key, m[i].0) && m[i].0 != key
  {
    var k := UpperBound(m, key);
    LessTotal(key, key);
    forall i | k <= i < |m|
      ensures Less(key, m[i].0)
    {
      LessTotal(m[k].0, m[k].0);
      LessTrans(key, m[k].0, m[i].0);
    }
  }

  lemma EmplaceSorted(m: Args, key: string, value: string)
    requires Sorted(m)
    ensures Sorted(Emplace(m, key, value))
  {
    var k := UpperBound(m, key);
    var r := Emplace(m, key, value);
    AllGreater(m, key);
    LessTotal(key, key);
    forall i, j | 0 <= i < j < |r|
      ensures !Less(r[j].0, r[i].0)
    {
      LessTotal(r[i].0, r[j].0);
    }
  }

  lemma ValuesOne(key: string, value: string, k: string)
    ensures ValuesOf([(key, value)], k) == if k == key then [value] else []
  {
    assert ButLast([(key, value)]) == [];
  }

  lemma GreaterHaveNoValues(m: Args, key: string)
    requires Sorted(m)
    ensures ValuesOf(m[UpperBound(m, key)..], key) == []
  {
    AllGreater(m, key);
    hide ValuesOf;
    NoValues(m[UpperBound(m, key)..], key);
  }

  /** Stable insertion: the new value goes last among those of its key, and no other key notices. */
  lemma EmplaceValues(m: Args, key: string, value: string, k: string)
    requires Sorted(m)
    ensures ValuesOf(Emplace(m, key, value), k) == if k == key then ValuesOf(m, k) + [value] else ValuesOf(m, k)
  {
    hide ValuesOf, Sorted, UpperBound;
    var n := UpperBound(m, key);
    var a, e, b := m[..n], [(key, value)], m[n..];
    assert m == a + b;
    ValuesOne(key, value, k);
    ValuesConcat(a, b, k);
    ValuesConcat(a + e, b, k);
    ValuesConcat(a, e, k);
    GreaterHaveNoValues(m, key);
  }

  /** Any sequence of emplace calls on an empty multimap. */
  function Build(calls: Args): Args {
    if calls == [] then [] else Emplace(Build(ButLast(calls)), Last(calls).0, Last(calls).1)
  }

  /** Whatever is inserted, in whatever order: iteration is sorted by key, and each key's values come in the order
      the caller gave them, duplicates kept. */
  lemma {:induction false} BuildIsAStableSort(calls: Args, key: string)
    ensures Sorted(Build(calls)) && |Build(calls)| == |calls|
    ensures ValuesOf(Build(calls), key) == ValuesOf(calls, key)
    decreases |calls|
  {
    if calls != [] {
      BuildIsAStableSort(ButLast(calls), key);
      EmplaceSorted(Build(ButLast(calls)), Last(calls).0, Last(calls).1);
      EmplaceValues(Build(ButLast(calls)), Last(calls).0, Last(calls).1, key);
    }
  }

  // ---- getUsers on both clients -------------------------------------------------------------------------------

  function Tagged(key: string, values: seq<string>): (r: Args)
    ensures |r| == |values|
  {
    seq(|values|, i requires 0 <= i < |values| => (key, values[i]))
  }

  lemma {:induction false} TaggedValues(key: string, values: seq<string>, k: string)
    ensures ValuesOf(Tagged(key, values), k) == if k == key then values else []
    decreases |values|
  {
    if values != [] {
      TaggedValues(key, ButLast(values), k);
      assert ButLast(Tagged(key, values)) == Tagged(key, ButLast(values));
      assert values == ButLast(values) + [Last(values)];
    }
  }

  /** One of the loops of getUsers: `for (auto& v : values) args.emplace(key, v);` */
  method EmplaceAll(args: Args, key: string, values: seq<string>, ghost calls: Args) returns (r: Args)
    requires args == Build(calls)
    ensures r == Build(calls + Tagged(key, values))
  {
    r := args;
    var i := 0;
    assert calls + Tagged(key, values[..0]) == calls;
    while i < |values|
      invariant 0 <= i <= |values|
      invariant r == Build(calls + Tagged(key, values[..i]))
    {
      r := Emplace(r, key, values[i]);
      ghost var next := calls + Tagged(key, values[..i + 1]);
      assert ButLast(next) == calls + Tagged(key, values[..i]) && Last(next) == (key, values[i]);
      i := i + 1;
    }
    assert values[..|values|] == values;
  }

  ghost function UserCalls(ids: seq<string>, usernames: seq<string>, facebookIds: seq<string>): Args {
    Tagged("ids", ids) + Tagged("usernames", usernames) + Tagged("facebook_ids", facebookIds)
  }

  /** RestClient::getUsers: the arguments it sends. */
  method RestUsersArgs(ids: seq<string>, usernames: seq<string>, facebookIds: seq<string>) returns (args: Args)
    ensures args == Build(UserCalls(ids, usernames, facebookIds))
    ensures Sorted(args) && |args| == |ids| + |usernames| + |facebookIds|
    ensures ValuesOf(args, "ids") == ids
    ensures ValuesOf(args, "usernames") == usernames
    ensures ValuesOf(args, "facebook_ids") == facebookIds
  {
    args := EmplaceAll([], "ids", ids, []);
    assert [] + Tagged("ids", ids) == Tagged("ids", ids);
    args := EmplaceAll(args, "usernames", usernames, Tagged("ids", ids));
    args := EmplaceAll(args, "facebook_ids", facebookIds, Tagged("ids", ids) + Tagged("usernames", usernames));
    UserCallsValues(ids, usernames, facebookIds, "ids");
    UserCallsValues(ids, usernames, facebookIds, "usernames");
    UserCallsValues(ids, usernames, facebookIds, "facebook_ids");
  }

  /** Each list reaches the wire under its own key, in the caller's order; no other key is sent. */
  lemma UserCallsValues(ids: seq<string>, usernames: seq<string>, facebookIds: seq<string>, key: string)
    ensures var m := Build(UserCalls(ids, usernames, facebookIds));
            && Sorted(m) && |m| == |ids| + |usernames| + |facebookIds|
            && ValuesOf(m, key) ==
               if key == "ids" then ids else if key == "usernames" then usernames
               else if key == "facebook_ids" then facebookIds else []
  {
    var a, b, c := Tagged("ids", ids), Tagged("usernames", usernames), Tagged("facebook_ids", facebookIds);
    BuildIsAStableSort(a + b + c, key);
    hide Build, ValuesOf, Tagged;
    ValuesConcat(a + b, c, key);
    ValuesConcat(a, b, key);
    TaggedValues("ids", ids, key);
    TaggedValues("usernames", usernames, key);
    TaggedValues("facebook_ids", facebookIds, key);
    KeysDiffer();
  }

  lemma KeysDiffer()
    ensures "ids" != "usernames" && "ids" != "facebook_ids" && "usernames" != "facebook_ids"
  {
    assert |"ids"| == 3 && |"usernames"| == 9 && |"facebook_ids"| == 12;
  }

  /** The repeated fields of the gRPC request. */
  datatype GetUsersRequest = GetUsersRequest(ids: seq<string>, usernames: seq<string>, facebookIds: seq<string>)

  method AddAll(field: seq<string>, values: seq<string>) returns (r: seq<string>)
    ensures r == field + values
  {
    r := field;
    var i := 0;
    while i < |values|
      invariant 0 <= i <= |values|
      invariant r == field + values[..i]
    {
      r := r + [values[i]];
      i := i + 1;
    }
  }

  /** GrpcClient::getUsers: its fields are what RestClient sends under the three keys. */
  method GrpcUsersRequest(ids: seq<string>, usernames: seq<string>, facebookIds: seq<string>)
    returns (req: GetUsersRequest)
    ensures req.ids == ids && req.usernames == usernames && req.facebookIds == facebookIds
    ensures var args := Build(UserCalls(ids, usernames, facebookIds));
            && req.ids == ValuesOf(args, "ids")
            && req.usernames == ValuesOf(args, "usernames")
            && req.facebookIds == ValuesOf(args, "facebook_ids")
  {
    hide Build, ValuesOf, UserCalls, Sorted;
    var a := AddAll([], ids);
    var b := AddAll([], usernames);
    var c := AddAll([], facebookIds);
    req := GetUsersRequest(a, b, c);
    KeysDiffer();
    UserCallsValues(ids, usernames, facebookIds, "ids");
    UserCallsValues(ids, usernames, facebookIds, "usernames");
    UserCallsValues(ids, usernames, facebookIds, "facebook_ids");
  }
}
