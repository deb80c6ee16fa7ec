/** DataHelper (src/DataHelper.h, src/DataHelper.cpp): `assign` fills an object that may hold something already. What
    of the old contents survives? */
module DataHelper {
  import opened Basics

  // ---- the records --------------------------------------------------------------------------------------------

  datatype Presence =
    Presence(userId: string, sessionId: string, username: string, persistence: bool, status: string)

  /** `text` is the match label. */
  datatype Match =
    Match(matchId: string, authoritative: bool, text: string, size: int, presences: seq<Presence>, self: Presence)

  datatype ApiMatch = ApiMatch(matchId: string, authoritative: bool, text: string, size: int)

  const NEW_PRESENCE := Presence("", "", "", false, "")
  const NEW_MATCH := Match("", false, "", 0, [], NEW_PRESENCE)

  /** `assign(NMatch&, const api::Match&)`. */
  function AssignMatch(m: Match, data: ApiMatch): Match {
    m.(matchId := data.matchId, size := data.size, authoritative := data.authoritative, text := data.text)
  }

  datatype Record =
    Record(
      leaderboardId: string, ownerId: string, username: string, score: int, subscore: int, numScore: int,
      maxNumScore: nat, metadata: string, createTime: nat, updateTime: nat, expiryTime: nat, rank: int)

  /** The three times are in seconds. */
  datatype ApiRecord =
    ApiRecord(
      leaderboardId: string, ownerId: string, username: string, score: int, subscore: int, numScore: int,
      maxNumScore: nat, metadata: string, create: int, update: int, expiry: int, rank: int)

  const NEW_RECORD := Record("", "", "", 0, 0, 0, 0, "", 0, 0, 0, 0)

  /** `assign(NTimestamp&, const Timestamp&)`: milliseconds in an unsigned 64-bit integer. */
  function Millis(seconds: int): nat {
    seconds * 1000 % 0x1_0000_0000_0000_0000
  }

  /** `assign(NLeaderboardRecord&, const api::LeaderboardRecord&)`. */
  function AssignRecord(r: Record, data: ApiRecord): Record {
    r.(
    leaderboardId := data.leaderboardId, ownerId := data.ownerId, username := data.username,
    score := data.score, subscore := data.subscore, numScore := data.numScore, maxNumScore := data.maxNumScore,
    metadata := data.metadata, createTime := Millis(data.create), updateTime := Millis(data.update),
    expiryTime := Millis(data.expiry), rank := data.rank)
  }

  // ---- reading them back --------------------------------------------------------------------------------------

  /** The server's record that a record shows, its times in whole seconds. */
  function Shows(r: Record): ApiRecord {
    ApiRecord(
      r.leaderboardId, r.ownerId, r.username, r.score, r.subscore, r.numScore, r.maxNumScore, r.metadata,
      r.createTime / 1000, r.updateTime / 1000, r.expiryTime / 1000, r.rank)
  }

  /** In milliseconds it fits an unsigned 64-bit integer. */
  predicate Fits(seconds: int) {
    0 <= seconds * 1000 < 0x1_0000_0000_0000_0000
  }

  function ShowsMatch(m: Match): ApiMatch {
    ApiMatch(m.matchId, m.authoritative, m.text, m.size)
  }

  /** The times that fit are right to the millisecond. */
  predicate TimesInMillis(r: Record, data: ApiRecord) {
    && (Fits(data.create) ==> r.createTime == data.create * 1000)
    && (Fits(data.update) ==> r.updateTime == data.update * 1000)
    && (Fits(data.expiry) ==> r.expiryTime == data.expiry * 1000)
  }

  /** What the list shows is the server's data, item by item, exactly if the times of the item fit. */
  ghost predicate Faithful(records: seq<Record>, data: seq<ApiRecord>) {
    && |records| == |data|
    && forall i | 0 <= i < |data| ::
         && TimesInMillis(records[i], data[i])
         && (Shows(records[i]) == data[i] <==>
             Fits(data[i].create) && Fits(data[i].update) && Fits(data[i].expiry))
  }

  lemma MillisKeepTheTime(seconds: int)
    ensures Millis(seconds) / 1000 == seconds <==> Fits(seconds)
    ensures Fits(seconds) ==> Millis(seconds) == seconds * 1000
  {
  }

  lemma RecordKeepsTheData(r: Record, data: ApiRecord)
    ensures Shows(AssignRecord(r, data)) == data <==> Fits(data.create) && Fits(data.update) && Fits(data.expiry)
    ensures TimesInMillis(AssignRecord(r, data), data)
  {
    MillisKeepTheTime(data.create);
    MillisKeepTheTime(data.update);
    MillisKeepTheTime(data.expiry);
    hide Millis, Fits;
  }

  /** A filled list gives its data back, whatever it held before. */
  lemma RecordsKeepTheData(dest: seq<Record>, data: seq<ApiRecord>)
    ensures Faithful(Copied(dest, data, NEW_RECORD, AssignRecord), data)
  {
    forall i | 0 <= i < |data|
      ensures var r := Copied(dest, data, NEW_RECORD, AssignRecord)[i];
              && TimesInMillis(r, data[i])
              && (Shows(r) == data[i] <==> Fits(data[i].create) && Fits(data[i].update) && Fits(data[i].expiry))
    {
      RecordKeepsTheData(if i < |dest| then dest[i] else NEW_RECORD, data[i]);
    }
  }

  lemma MatchesKeepTheData(dest: seq<Match>, data: seq<ApiMatch>)
    ensures |Copied(dest, data, NEW_MATCH, AssignMatch)| == |data|
    ensures forall i | 0 <= i < |data| :: ShowsMatch(Copied(dest, data, NEW_MATCH, AssignMatch)[i]) == data[i]
  {
    forall i | 0 <= i < |data|
      ensures ShowsMatch(Copied(dest, data, NEW_MATCH, AssignMatch)[i]) == data[i]
    {
      var was := if i < |dest| then dest[i] else NEW_MATCH;
      assert ShowsMatch(AssignMatch(was, data[i])) == data[i];
    }
  }

  // ---- the templates ------------------------------------------------------------------------------------------

  /** `vector::resize`. */
  function Resized<T>(s: seq<T>, n: nat, blank: T): (r: seq<T>)
    ensures |r| == n
    ensures forall i | 0 <= i < n :: r[i] == if i < |s| then s[i] else blank
  {
    if n <= |s| then s[..n] else s + seq(n - |s|, _ => blank)
  }

  /** Element i of the destination, or a new element, with item i of the data written over it. */
  function Copied<T, B>(dest: seq<T>, data: seq<B>, blank: T, put: (T, B) -> T): (r: seq<T>)
    ensures |r| == |data|
  {
    seq(|data|, i requires 0 <= i < |data| => put(if i < |dest| then dest[i] else blank, data[i]))
  }

  method AssignRepeated<T, B>(dest: seq<T>, data: seq<B>, blank: T, put: (T, B) -> T) returns (b: seq<T>)
    ensures b == Copied(dest, data, blank, put)
  {
    b := Resized(dest, |data|, blank);
    for i := 0 to |data|
      invariant |b| == |data|
      invariant b[..i] == Copied(dest, data, blank, put)[..i]
      invariant b[i..] == Resized(dest, |data|, blank)[i..]
    {
      assert b[i] == b[i..][0] == Resized(dest, |data|, blank)[i..][0];
      b := b[i := put(b[i], data[i])];
    }
  }

  /** The loop `for (auto& it : data) b.emplace(...)`, which leaves a key alone that is there. `order` is the order in
      which the data, a hash map, happens to be walked. */
  method EmplaceEach<A(==), B>(dest: map<A, B>, data: map<A, B>, order: seq<A>) returns (b: map<A, B>)
    requires forall k :: k in order <==> k in data
    ensures b == data + dest
  {
    b := dest;
    for i := 0 to |order|
      invariant forall k :: k in b <==> k in dest || k in order[..i]
      invariant forall k | k in b :: b[k] == if k in dest then dest[k] else data[k]
    {
      assert order[..i + 1] == order[..i] + [order[i]];
      if order[i] !in b {
        b := b[order[i] := data[order[i]]];
      }
    }
    assert order[..|order|] == order;
  }

  /** The template for maps clears the destination first, so nothing survives and the order does not matter. */
  method AssignMap<A(==), B>(dest: map<A, B>, data: map<A, B>, order: seq<A>) returns (b: map<A, B>)
    requires forall k :: k in order <==> k in data
    ensures b == data
  {
    b := EmplaceEach(map[], data, order);
  }

  // ---- the lists ----------------------------------------------------------------------------------------------

  class LeaderboardRecordList {
    var records: seq<Record>
    var ownerRecords: seq<Record>
    var nextCursor: string
    var prevCursor: string

    /** Whatever the list held, it now shows the data, and is what a new list would be. */
    method Assign(records: seq<ApiRecord>, ownerRecords: seq<ApiRecord>, nextCursor: string, prevCursor: string)
      modifies this
      ensures Faithful(this.records, records) && Faithful(this.ownerRecords, ownerRecords)
      ensures this.records == Copied([], records, NEW_RECORD, AssignRecord)
      ensures this.ownerRecords == Copied([], ownerRecords, NEW_RECORD, AssignRecord)
      ensures this.nextCursor == nextCursor && this.prevCursor == prevCursor
    {
      RecordsKeepTheData(this.ownerRecords, ownerRecords);
      RecordsKeepTheData(this.records, records);
      RecordsLeaveNothing(this.ownerRecords, ownerRecords);
      RecordsLeaveNothing(this.records, records);
      this.nextCursor, this.prevCursor := nextCursor, prevCursor;
      this.ownerRecords := AssignRepeated(this.ownerRecords, ownerRecords, NEW_RECORD, AssignRecord);
      this.records := AssignRepeated(this.records, records, NEW_RECORD, AssignRecord);
    }
  }

  class MatchList {
    var matches: seq<Match>

    /** As from a new list exactly when no element to be written over holds presences or a `self`. */
    method Assign(data: seq<ApiMatch>)
      modifies this
      ensures |matches| == |data| && forall i | 0 <= i < |data| :: ShowsMatch(matches[i]) == data[i]
      ensures matches == Copied(old(matches), data, NEW_MATCH, AssignMatch)
      ensures forall i | 0 <= i < |data| && i < |old(matches)| ::
                matches[i].presences == old(matches)[i].presences && matches[i].self == old(matches)[i].self
      ensures matches == Copied([], data, NEW_MATCH, AssignMatch) <==> NothingToLeave(old(matches), |data|)
    {
      MatchesKeepTheData(matches, data);
      MatchesLeaveExactlyTheirPresences(matches, data);
      matches := AssignRepeated(matches, data, NEW_MATCH, AssignMatch);
    }
  }

  class RtError {
    var message: string
    var code: int
    var context: map<string, string>

    /** The context is not cleared: an entry the error held wins over the data. It equals the data exactly when every
        old entry is in the data. */
    method Assign(message: string, code: int, data: map<string, string>, order: seq<string>)
      requires forall k :: k in order <==> k in data
      modifies this
      ensures this.message == message && this.code == code && context == data + old(context)
      ensures context == data <==> forall k | k in old(context) :: k in data && data[k] == old(context)[k]
    {
      this.message, this.code := message, code;
      MergeIsTheDataExactlyWhen(context, data);
      context := EmplaceEach(context, data, order);
    }
  }

  // ---- what survives ------------------------------------------------------------------------------------------

  lemma RecordsLeaveNothing(dest: seq<Record>, data: seq<ApiRecord>)
    ensures Copied(dest, data, NEW_RECORD, AssignRecord) == Copied([], data, NEW_RECORD, AssignRecord)
  {
    forall i | 0 <= i < |data|
      ensures Copied(dest, data, NEW_RECORD, AssignRecord)[i] == Copied([], data, NEW_RECORD, AssignRecord)[i]
    {
      var was := if i < |dest| then dest[i] else NEW_RECORD;
      assert AssignRecord(was, data[i]) == AssignRecord(NEW_RECORD, data[i]);
    }
  }

  predicate NothingToLeave(dest: seq<Match>, n: nat) {
    forall i | 0 <= i < |dest| && i < n :: dest[i].presences == [] && dest[i].self == NEW_PRESENCE
  }

  /** A match keeps the presences and the `self` that its place in the list held before. */
  lemma MatchesLeaveExactlyTheirPresences(dest: seq<Match>, data: seq<ApiMatch>)
    ensures forall i | 0 <= i < |data| && i < |dest| ::
              var m := Copied(dest, data, NEW_MATCH, AssignMatch)[i];
              m.presences == dest[i].presences && m.self == dest[i].self
    ensures Copied(dest, data, NEW_MATCH, AssignMatch) == Copied([], data, NEW_MATCH, AssignMatch)
            <==> NothingToLeave(dest, |data|)
  {
    var r, blank := Copied(dest, data, NEW_MATCH, AssignMatch), Copied([], data, NEW_MATCH, AssignMatch);
    forall i | 0 <= i < |data|
      ensures i < |dest| ==> r[i].presences == dest[i].presences && r[i].self == dest[i].self
      ensures r[i] == blank[i] <==> i < |dest| ==> dest[i].presences == [] && dest[i].self == NEW_PRESENCE
    {
      var was := if i < |dest| then dest[i] else NEW_MATCH;
      assert r[i] == blank[i].(presences := was.presences, self := was.self);
    }
  }

  lemma MergeIsTheDataExactlyWhen<A, B>(dest: map<A, B>, data: map<A, B>)
    ensures data + dest == data <==> forall k | k in dest :: k in data && data[k] == dest[k]
  {
  }
}
