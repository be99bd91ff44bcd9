/**
 * The vote submission service: `castVote` refuses a (poll, user) pair whose
 * dedup key is still live in the key-value store, and otherwise appends the
 * vote to the `raw-votes` log, keyed by poll, and then marks the pair for an
 * hour.
 */
module VotingApi {
  import opened Wrappers

  /** Lifetime of a dedup mark, in seconds (`EX 3600`). */
  const DedupTtlSeconds: int := 3600

  /** The value stored under a dedup key. */
  const VotedMarker: string := "1"

  /** The status returned for an accepted vote. */
  const VoteQueued: string := "Vote queued"

  /** The value of one `raw-votes` message. */
  datatype VoteRecord = VoteRecord(pollId: string, optionId: string, userId: string)

  /** One `raw-votes` message: its partition key and its value. */
  datatype LogRecord = LogRecord(key: string, value: VoteRecord)

  /** A key-value store entry and the instant (in seconds) at which it expires. */
  datatype DedupEntry = DedupEntry(value: string, expiresAt: int)

  /** Why `castVote` throws: the pair already voted, or the log append threw. */
  datatype CastError = AlreadyVoted | AppendFailed

  /** The acknowledgement `{status}` of an accepted vote. */
  datatype Ack = Ack(status: string)

  /** The external state `castVote` touches: the dedup store and the `raw-votes` log. */
  datatype Service = Service(store: map<string, DedupEntry>, log: seq<LogRecord>)

  /** The state after a call, and what the call returned. */
  datatype CastOutcome = CastOutcome(after: Service, result: Result<Ack, CastError>)

  /** One call of `castVote`: its arguments, its clock reading, and whether the append succeeds. */
  datatype Call = Call(pollId: string, optionId: string, userId: string, now: int, appendOk: bool)

  /** The dedup key `vote:{pollId}:{userId}`. */
  function DedupKey(pollId: string, userId: string): string
  {
    "vote:" + pollId + ":" + userId
  }

  /** A key-value `GET` at time `now`: the value, or `None` if the key is missing or expired. */
  function StoreGet(store: map<string, DedupEntry>, key: string, now: int): Option<string>
  {
    if key in store && now < store[key].expiresAt then Some(store[key].value) else None
  }

  /** The `hasVoted` test: the `GET` of the pair's key returns a truthy (non-empty) string. */
  predicate HasVoted(store: map<string, DedupEntry>, pollId: string, userId: string, now: int)
  {
    var v := StoreGet(store, DedupKey(pollId, userId), now);
    v.Some? && v.value != ""
  }

  /** `castVote(pollId, optionId, userId)` at time `now`, as a function of the state it touches. */
  function Cast(s: Service, pollId: string, optionId: string, userId: string, now: int, appendOk: bool): (r: CastOutcome)
    ensures r.result.Failure? ==> r.after == s
    ensures |s.log| <= |r.after.log| <= |s.log| + 1 && r.after.log[..|s.log|] == s.log
    ensures forall k :: k in s.store && k != DedupKey(pollId, userId) ==> k in r.after.store && r.after.store[k] == s.store[k]
    ensures forall k :: k in r.after.store ==> k in s.store || k == DedupKey(pollId, userId)
  {
    if HasVoted(s.store, pollId, userId, now) then CastOutcome(s, Failure(AlreadyVoted))
    else if !appendOk then CastOutcome(s, Failure(AppendFailed))
    else
      var log := s.log + [LogRecord(pollId, VoteRecord(pollId, optionId, userId))];
      var store := s.store[DedupKey(pollId, userId) := DedupEntry(VotedMarker, now + DedupTtlSeconds)];
      CastOutcome(Service(store, log), Success(Ack(VoteQueued)))
  }

  /**
   * A vote is accepted exactly when the pair has no live mark and the append
   * succeeds; it is refused as a duplicate exactly when the mark is live.
   */
  lemma CastOutcomes(s: Service, pollId: string, optionId: string, userId: string, now: int, appendOk: bool)
    ensures var r := Cast(s, pollId, optionId, userId, now, appendOk).result;
      && (r.Success? <==> !HasVoted(s.store, pollId, userId, now) && appendOk)
      && (r == Failure(AlreadyVoted) <==> HasVoted(s.store, pollId, userId, now))
      && (r == Failure(AppendFailed) <==> !HasVoted(s.store, pollId, userId, now) && !appendOk)
  {
  }

  /**
   * An accepted call appends exactly one record, keyed by poll, after the
   * untouched earlier records; it sets the pair's key, and only that key, to
   * the marker with an expiry one hour from now; it answers "Vote queued".
   */
  lemma AcceptanceAppendsAndMarks(s: Service, pollId: string, optionId: string, userId: string, now: int, appendOk: bool)
    requires Cast(s, pollId, optionId, userId, now, appendOk).result.Success?
    ensures var o := Cast(s, pollId, optionId, userId, now, appendOk);
      && o.result == Success(Ack(VoteQueued))
      && |o.after.log| == |s.log| + 1
      && o.after.log[..|s.log|] == s.log
      && o.after.log[|s.log|] == LogRecord(pollId, VoteRecord(pollId, optionId, userId))
      && o.after.store == s.store[DedupKey(pollId, userId) := DedupEntry("1", now + 3600)]
  {
  }

  /**
   * After an accepted vote, a second call for the same poll and user, with any
   * option, made before the mark expires is refused and appends nothing.
   */
  lemma SecondVoteRefused(s: Service, pollId: string, userId: string,
                          first: string, t1: int, ok1: bool,
                          second: string, t2: int, ok2: bool)
    requires Cast(s, pollId, first, userId, t1, ok1).result.Success?
    requires t1 <= t2 < t1 + DedupTtlSeconds
    ensures var s1 := Cast(s, pollId, first, userId, t1, ok1).after;
      Cast(s1, pollId, second, userId, t2, ok2) == CastOutcome(s1, Failure(AlreadyVoted))
  {
  }

  /** Once the mark has expired, the same poll and user may vote again. */
  lemma VoteAgainAfterExpiry(s: Service, pollId: string, userId: string,
                             first: string, t1: int, ok1: bool,
                             second: string, t2: int)
    requires Cast(s, pollId, first, userId, t1, ok1).result.Success?
    requires t1 + DedupTtlSeconds <= t2
    ensures var s1 := Cast(s, pollId, first, userId, t1, ok1).after;
      Cast(s1, pollId, second, userId, t2, true).result == Success(Ack(VoteQueued))
  {
  }

  /**
   * The append happens before the mark: when the append throws, no mark is
   * set, so a retry by the same voter is not refused as a duplicate.
   */
  lemma FailedAppendDoesNotBlock(s: Service, pollId: string, optionId: string, userId: string, now: int)
    requires !HasVoted(s.store, pollId, userId, now)
    ensures var o := Cast(s, pollId, optionId, userId, now, false);
      && o == CastOutcome(s, Failure(AppendFailed))
      && Cast(o.after, pollId, optionId, userId, now, true).result == Success(Ack(VoteQueued))
  {
  }

  /** Index of the first ':' in `s`, or `|s|` when there is none. */
  function ColonIndex(s: string): (i: nat)
    ensures i <= |s|
    ensures i < |s| ==> s[i] == ':'
    ensures forall j :: 0 <= j < i ==> s[j] != ':'
  {
    if s == [] then 0 else if s[0] == ':' then 0 else 1 + ColonIndex(s[1..])
  }

  lemma {:induction false} ColonIndexOfJoin(p: string, u: string)
    requires ':' !in p
    ensures ColonIndex(p + ":" + u) == |p|
    decreases |p|
  {
    if p != [] {
      assert (p + ":" + u)[1..] == p[1..] + ":" + u;
      ColonIndexOfJoin(p[1..], u);
    }
  }

  /**
   * The key determines the pair when poll ids contain no ':'; the check and
   * the mark use the same string, built from the poll and the user only.
   */
  lemma DedupKeyInjective(p1: string, u1: string, p2: string, u2: string)
    requires ':' !in p1 && ':' !in p2
    ensures DedupKey(p1, u1) == DedupKey(p2, u2) <==> p1 == p2 && u1 == u2
  {
    if DedupKey(p1, u1) == DedupKey(p2, u2) {
      var k1, k2 := p1 + ":" + u1, p2 + ":" + u2;
      assert k1 == DedupKey(p1, u1)[5..] == k2;
      ColonIndexOfJoin(p1, u1);
      ColonIndexOfJoin(p2, u2);
      assert p1 == k1[..|p1|] == k2[..|p2|] == p2;
      assert u1 == k1[|p1| + 1..] == k2[|p2| + 1..] == u2;
    }
  }

  /** Without that restriction two different pairs can share a key. */
  lemma DedupKeyCollision(pollId: string, middle: string, userId: string)
    ensures DedupKey(pollId + ":" + middle, userId) == DedupKey(pollId, middle + ":" + userId)
  {
  }

  /** The state after a sequence of calls, made one after the other. */
  function Run(s: Service, calls: seq<Call>): Service
    decreases |calls|
  {
    if calls == [] then s
    else
      var c := calls[|calls| - 1];
      Cast(Run(s, calls[..|calls| - 1]), c.pollId, c.optionId, c.userId, c.now, c.appendOk).after
  }

  /** Number of records of `log` cast by `userId` on `pollId`. */
  function RecordsFor(log: seq<LogRecord>, pollId: string, userId: string): nat
  {
    if log == [] then 0
    else
      var v := log[|log| - 1].value;
      RecordsFor(log[..|log| - 1], pollId, userId) + (if v.pollId == pollId && v.userId == userId then 1 else 0)
  }

  lemma {:induction false} RecordsForSnoc(log: seq<LogRecord>, r: LogRecord, pollId: string, userId: string)
    ensures RecordsFor(log + [r], pollId, userId)
      == RecordsFor(log, pollId, userId) + (if r.value.pollId == pollId && r.value.userId == userId then 1 else 0)
  {
  }

  /**
   * Calls made one after the other within one dedup window append at most one
   * record per (poll, user) pair; after the first, the pair's key stays live
   * to the end of the window.
   */
  lemma {:induction false} OneAcceptancePerWindow(s: Service, calls: seq<Call>, pollId: string, userId: string, t0: int)
    requires forall i :: 0 <= i < |calls| ==> t0 <= calls[i].now < t0 + DedupTtlSeconds
    ensures var r := Run(s, calls);
      && RecordsFor(r.log, pollId, userId) <= RecordsFor(s.log, pollId, userId) + 1
      && (RecordsFor(r.log, pollId, userId) > RecordsFor(s.log, pollId, userId) ==>
            var k := DedupKey(pollId, userId);
            k in r.store && r.store[k].value == VotedMarker && t0 + DedupTtlSeconds <= r.store[k].expiresAt)
    decreases |calls|
  {
    if calls != [] {
      var prefix, c := calls[..|calls| - 1], calls[|calls| - 1];
      OneAcceptancePerWindow(s, prefix, pollId, userId, t0);
      var p := Run(s, prefix);
      var o := Cast(p, c.pollId, c.optionId, c.userId, c.now, c.appendOk);
      if o.result.Success? {
        RecordsForSnoc(p.log, LogRecord(c.pollId, VoteRecord(c.pollId, c.optionId, c.userId)), pollId, userId);
        var k := DedupKey(pollId, userId);
        if RecordsFor(p.log, pollId, userId) > RecordsFor(s.log, pollId, userId) && DedupKey(c.pollId, c.userId) == k {
          assert HasVoted(p.store, c.pollId, c.userId, c.now);
        }
      }
    }
  }

  /**
   * The voting service over its collaborators' state: the dedup store
   * (`vote:{pollId}:{userId}` keys with expiry) and the `raw-votes` log.
   */
  class VotingApiService {
    var store: map<string, DedupEntry>
    var log: seq<LogRecord>

    constructor (redis: map<string, DedupEntry>, rawVotes: seq<LogRecord>)
      ensures store == redis && log == rawVotes
    {
      store := redis;
      log := rawVotes;
    }

    /**
     * `castVote` at clock reading `now`; `appendOk` says whether the append to
     * the log returns normally. Checks the key, appends, then sets the mark.
     */
    method CastVote(pollId: string, optionId: string, userId: string, now: int, appendOk: bool)
      returns (r: Result<Ack, CastError>)
      modifies this
      ensures CastOutcome(Service(store, log), r)
        == Cast(Service(old(store), old(log)), pollId, optionId, userId, now, appendOk)
      ensures r.Failure? ==> store == old(store) && log == old(log)
    {
      var hasVoted := StoreGet(store, DedupKey(pollId, userId), now);
      if hasVoted.Some? && hasVoted.value != "" {
        return Failure(AlreadyVoted);
      }
      if !appendOk {
        return Failure(AppendFailed);
      }
      log := log + [LogRecord(pollId, VoteRecord(pollId, optionId, userId))];
      store := store[DedupKey(pollId, userId) := DedupEntry(VotedMarker, now + DedupTtlSeconds)];
      return Success(Ack(VoteQueued));
    }
  }
}
