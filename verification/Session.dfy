/** DefaultSession (src/DefaultSession.cpp): reading a session token. Base64 and JSON parsing are the environment's:
    `decode` maps a payload segment to the claims it holds, or to nothing when it does not parse. */
module Session {
  import opened Basics

  const MAX := 0x1_0000_0000_0000_0000

  /** The `exp` member; a number is read as an unsigned 64-bit integer. */
  datatype Expiry = NoExpiry | Seconds(s: nat)

  /** What the claims say. Members of `vrs` come in document order, None standing for a value that is no string. */
  datatype Claims = Claims(
    exp: Expiry,
    usn: Option<string>,
    uid: Option<string>,
    vrs: Option<seq<(string, Option<string>)>>)

  // ---- the token ----------------------------------------------------------------------------------------------

  /** `find('.', from)`: the length of the string stands for npos. */
  function FindDot(s: string, from: nat): (k: nat)
    requires from <= |s|
    ensures from <= k <= |s|
    ensures k < |s| ==> s[k] == '.'
    ensures forall i | from <= i < k :: s[i] != '.'
    decreases |s| - from
  {
    if from == |s| || s[from] == '.' then from else FindDot(s, from + 1)
  }

  /** The segment between the first two dots. */
  function Payload(token: string): Option<string> {
    var d1 := FindDot(token, 0);
    if d1 == |token| then None
    else
      var d2 := FindDot(token, d1 + 1);
      if d2 == |token| then None else Some(token[d1 + 1..d2])
  }

  predicate DotFree(s: string) {
    forall i | 0 <= i < |s| :: s[i] != '.'
  }

  function Dots(s: string): nat {
    if s == [] then 0 else (if s[0] == '.' then 1 else 0) + Dots(s[1..])
  }

  lemma FindsDotAt(s: string, from: nat, k: nat)
    requires from <= k < |s| && s[k] == '.' && forall i | from <= i < k :: s[i] != '.'
    ensures FindDot(s, from) == k
  {
  }

  /** For a token h.p.s whose first two segments have no dots the payload is exactly p, whatever s is. */
  lemma PayloadIsTheMiddleSegment(h: string, p: string, s: string)
    requires DotFree(h) && DotFree(p)
    ensures Payload(h + "." + p + "." + s) == Some(p)
  {
    var token := h + "." + p + "." + s;
    var d1, d2 := |h|, |h| + 1 + |p|;
    assert forall i | 0 <= i < d1 :: token[i] == h[i];
    assert forall i | d1 < i < d2 :: token[i] == p[i - d1 - 1];
    FindsDotAt(token, 0, d1);
    FindsDotAt(token, d1 + 1, d2);
    assert token[d1 + 1..d2] == p;
  }

  lemma {:induction false} DotsFrom(s: string, from: nat)
    requires from <= |s|
    ensures Dots(s[from..]) == 0 <==> FindDot(s, from) == |s|
    ensures FindDot(s, from) < |s| ==> Dots(s[from..]) == 1 + Dots(s[FindDot(s, from) + 1..])
    decreases |s| - from
  {
    if from < |s| {
      assert s[from..][1..] == s[from + 1..];
      if s[from] != '.' {
        DotsFrom(s, from + 1);
      }
    }
  }

  /** There is a payload exactly if the token has two dots or more. */
  lemma PayloadNeedsTwoDots(token: string)
    ensures Payload(token).None? <==> Dots(token) < 2
  {
    assert token[0..] == token;
    DotsFrom(token, 0);
    var d1 := FindDot(token, 0);
    if d1 < |token| {
      DotsFrom(token, d1 + 1);
    }
  }

  // ---- expiry -------------------------------------------------------------------------------------------------

  /** `GetUint64() * 1000ULL`, which wraps. */
  function ExpireMs(exp: Expiry): (t: nat)
    ensures t < MAX
  {
    if exp.Seconds? then exp.s * 1000 % MAX else 0
  }

  predicate IsExpiredAt(expireTime: nat, now: nat) {
    now >= expireTime
  }

  /** Expiry is exact to the millisecond, at every time a timestamp can hold, exactly if `exp` in milliseconds fits
      64 bits. Beyond that the product wraps and the session counts as expired too early. */
  lemma ExpiryIsExactExactlyWhenItFits(s: nat)
    ensures (forall now | 0 <= now < MAX :: IsExpiredAt(ExpireMs(Seconds(s)), now) <==> now >= s * 1000)
            <==> s * 1000 < MAX
  {
    var t := ExpireMs(Seconds(s));
    if s * 1000 >= MAX {
      assert IsExpiredAt(t, t) && t < s * 1000;
    } else {
      assert t == s * 1000;
    }
  }

  /** The first second count that wraps: a token meant to last half a billion years is expired in 1970. */
  lemma ExpiryWraps()
    ensures ExpireMs(Seconds(18446744073709552)) == 384
    ensures IsExpiredAt(ExpireMs(Seconds(18446744073709552)), 1000)
  {
  }

  // ---- variables ----------------------------------------------------------------------------------------------

  /** The loop over `vrs`: emplace keeps the first value a name gets. */
  function Collect(members: seq<(string, Option<string>)>): map<string, string> {
    if members == [] then map[]
    else
      var m := Collect(ButLast(members));
      var (name, value) := Last(members);
      if value.Some? && name !in m then m[name := value.value] else m
  }

  /** The first member of that name whose value is a string. */
  function FirstString(members: seq<(string, Option<string>)>, name: string): Option<string> {
    if members == [] then None
    else if members[0].0 == name && members[0].1.Some? then members[0].1
    else FirstString(members[1..], name)
  }

  lemma {:induction false} FirstStringAppend(s: seq<(string, Option<string>)>, e: (string, Option<string>),
                                             name: string)
    ensures FirstString(s + [e], name) ==
            if FirstString(s, name).Some? then FirstString(s, name)
            else if e.0 == name then e.1 else None
    decreases |s|
  {
    if s == [] {
      assert s + [e] == [e];
    } else {
      FirstStringAppend(s[1..], e, name);
      assert (s + [e])[1..] == s[1..] + [e];
    }
  }

  lemma {:induction false} CollectKeepsTheFirst(members: seq<(string, Option<string>)>, name: string)
    ensures var m := Collect(members);
            FirstString(members, name) == if name in m then Some(m[name]) else None
    decreases |members|
  {
    if members != [] {
      CollectKeepsTheFirst(ButLast(members), name);
      assert members == ButLast(members) + [Last(members)];
      FirstStringAppend(ButLast(members), Last(members), name);
    }
  }

  // ---- the class ----------------------------------------------------------------------------------------------

  ghost function ClaimsOf(token: string, decode: string -> Option<Claims>): Option<Claims> {
    match Payload(token)
    case None => None
    case Some(payload) => decode(payload)
  }

  class DefaultSession {
    const token: string
    const created: bool
    const createTime: nat
    var userId: string
    var username: string
    var expireTime: nat
    var variables: map<string, string>

    constructor (token: string, created: bool, now: nat, decode: string -> Option<Claims>)
      ensures this.token == token && this.created == created && createTime == now
      ensures match ClaimsOf(token, decode)
              case None => expireTime == 0 && userId == "" && username == "" && variables == map[]
              case Some(c) =>
                && expireTime == ExpireMs(c.exp)
                && username == (if c.usn.Some? then c.usn.value else "")
                && userId == (if c.uid.Some? then c.uid.value else "")
                && variables == if c.vrs.Some? then Collect(c.vrs.value) else map[]
    {
      this.token, this.created, createTime := token, created, now;
      userId, username, expireTime, variables := "", "", 0, map[];
      new;
      var dotIndex1 := FindDot(token, 0);
      if dotIndex1 != |token| {
        dotIndex1 := dotIndex1 + 1;
        var dotIndex2 := FindDot(token, dotIndex1);
        if dotIndex2 != |token| {
          var document := decode(token[dotIndex1..dotIndex2]);
          if document.Some? {
            ReadClaims(document.value);
          }
        }
      }
    }

    method ReadClaims(c: Claims)
      requires expireTime == 0 && userId == "" && username == "" && variables == map[]
      modifies this
      ensures expireTime == ExpireMs(c.exp)
      ensures username == if c.usn.Some? then c.usn.value else ""
      ensures userId == if c.uid.Some? then c.uid.value else ""
      ensures variables == if c.vrs.Some? then Collect(c.vrs.value) else map[]
    {
      if c.exp.Seconds? {
        expireTime := c.exp.s * 1000 % MAX;
      }
      if c.usn.Some? {
        username := c.usn.value;
      }
      if c.uid.Some? {
        userId := c.uid.value;
      }
      if c.vrs.Some? {
        var members, i := c.vrs.value, 0;
        while i < |members|
          invariant 0 <= i <= |members| && variables == Collect(members[..i])
          modifies `variables
        {
          var (name, value) := members[i];
          if value.Some? && name !in variables {
            variables := variables[name := value.value];
          }
          assert ButLast(members[..i + 1]) == members[..i];
          i := i + 1;
        }
        assert members[..|members|] == members;
      }
    }

    method IsExpired(now: nat) returns (expired: bool)
      ensures expired <==> now >= expireTime
    {
      expired := now >= expireTime;
    }

    method GetVariable(name: string) returns (value: string)
      ensures value == if name in variables then variables[name] else ""
    {
      if name in variables {
        return variables[name];
      }
      return "";
    }
  }

  /** A token with fewer than two dots makes a session that is expired at every time and has no variables. */
  method MalformedTokenIsExpired(token: string, created: bool, now: nat, decode: string -> Option<Claims>, at: nat,
                                 name: string)
    returns (expired: bool, value: string)
    requires Dots(token) < 2
    ensures expired && value == ""
  {
    PayloadNeedsTwoDots(token);
    var session := new DefaultSession(token, created, now, decode);
    expired := session.IsExpired(at);
    value := session.GetVariable(name);
  }

  /** For any token h.p.s whose first two segments have no dots, from token to isExpired: expired at every time if p
      does not decode or holds no `exp`, else from `exp` in milliseconds on, as far as that fits 64 bits. */
  method ExpiryOfToken(h: string, p: string, s: string, now: nat, decode: string -> Option<Claims>, at: nat)
    returns (expired: bool)
    requires DotFree(h) && DotFree(p)
    ensures decode(p).None? ==> expired
    ensures decode(p).Some? && decode(p).value.exp.NoExpiry? ==> expired
    ensures decode(p).Some? && decode(p).value.exp.Seconds? && decode(p).value.exp.s * 1000 < MAX ==>
              (expired <==> at >= decode(p).value.exp.s * 1000)
    ensures decode(p).Some? && decode(p).value.exp.Seconds? && at >= decode(p).value.exp.s * 1000 ==> expired
  {
    PayloadIsTheMiddleSegment(h, p, s);
    var session := new DefaultSession(h + "." + p + "." + s, false, now, decode);
    expired := session.IsExpired(at);
  }

  /** The first string among the `vrs` members of that name; empty without claims, members or such a string. */
  ghost function VariableIn(claims: Option<Claims>, name: string): string {
    if claims.Some? && claims.value.vrs.Some? && FirstString(claims.value.vrs.value, name).Some?
    then FirstString(claims.value.vrs.value, name).value
    else ""
  }

  /** For any token h.p.s whose first two segments have no dots, getVariable reads the claims in p. */
  method VariableOfToken(h: string, p: string, s: string, now: nat, decode: string -> Option<Claims>, name: string)
    returns (value: string)
    requires DotFree(h) && DotFree(p)
    ensures value == VariableIn(decode(p), name)
  {
    PayloadIsTheMiddleSegment(h, p, s);
    if decode(p).Some? && decode(p).value.vrs.Some? {
      CollectKeepsTheFirst(decode(p).value.vrs.value, name);
    }
    var session := new DefaultSession(h + "." + p + "." + s, false, now, decode);
    value := session.GetVariable(name);
  }
}
