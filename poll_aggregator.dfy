/**
 * The poll aggregator: it counts `raw-votes` messages per option in an
 * in-memory buffer and, on every flush, adds the buffered counts to the
 * durable option counters and publishes the new totals on `poll-updates`.
 */
module PollAggregator {
  import opened Wrappers

  // ---------------------------------------------------------------------------
  // Messages and durable state
  // ---------------------------------------------------------------------------

  /** The value of one `raw-votes` message, as far as the aggregator reads it. */
  datatype VotePayload = VotePayload(optionId: Option<string>)

  /** JavaScript truthiness of the payload's `optionId`: absent and "" are falsy. */
  predicate HasOptionId(data: VotePayload)
  {
    data.optionId.Some? && data.optionId.value != ""
  }

  /** A row of the durable `option` table; the table is keyed by the option id. */
  datatype OptionRow = OptionRow(pollId: string, votes: int)

  /** The value of one `poll-updates` message. */
  datatype UpdateEvent = UpdateEvent(optionId: string, pollId: string, newCount: int)

  /** One `[optionId, count]` pair of the buffer. */
  datatype BufferEntry = BufferEntry(optionId: string, count: int)

  /** No option id occurs twice. */
  ghost predicate DistinctIds(s: seq<BufferEntry>)
  {
    forall i, j :: 0 <= i < j < |s| ==> s[i].optionId != s[j].optionId
  }

  /** Sum of the counts of `s`. */
  function Sum(s: seq<BufferEntry>): int
  {
    if s == [] then 0 else Sum(s[..|s| - 1]) + s[|s| - 1].count
  }

  /** Sum of the counts that `s` holds for option `o`. */
  function CountFor(s: seq<BufferEntry>, o: string): int
  {
    if s == [] then 0
    else CountFor(s[..|s| - 1], o) + (if s[|s| - 1].optionId == o then s[|s| - 1].count else 0)
  }

  // ---------------------------------------------------------------------------
  // The vote buffer: a JavaScript `Map<string, number>`
  // ---------------------------------------------------------------------------

  /**
   * A JavaScript `Map` from option id to buffered count: the values, and the
   * order in which the keys were first inserted (the order `entries()` yields).
   */
  datatype VoteBuffer = VoteBuffer(order: seq<string>, counts: map<string, int>)
  {
    ghost predicate Valid()
    {
      && (forall i, j :: 0 <= i < j < |order| ==> order[i] != order[j])
      && (forall k :: k in counts <==> k in order)
      && (forall k :: k in counts ==> counts[k] >= 1)
    }

    /** `size`: the number of entries. */
    function Size(): nat
    {
      |order|
    }

    /** `get(k) || 0`; for a number `v`, `v || 0` is `v`. */
    function Get(k: string): (r: int)
      ensures Valid() ==> r >= 0 && (r == 0 <==> k !in order)
    {
      if k in counts then counts[k] else 0
    }

    /** `set(k, v)`: overwrite in place, or append a new key at the end of the order. */
    function Set(k: string, v: int): (r: VoteBuffer)
      requires Valid() && v >= 1
      ensures r.Valid()
      ensures r.Get(k) == v
      ensures forall j :: j != k ==> r.Get(j) == Get(j)
      ensures r.order == if k in order then order else order + [k]
    {
      if k in counts then VoteBuffer(order, counts[k := v])
      else VoteBuffer(order + [k], counts[k := v])
    }

    /** `Array.from(entries())`: the entries in insertion order. */
    function Entries(): (r: seq<BufferEntry>)
      requires Valid()
      ensures |r| == |order| && DistinctIds(r)
      ensures forall i :: 0 <= i < |r| ==> r[i].optionId == order[i] && r[i].count == Get(order[i]) >= 1
      ensures forall k :: CountFor(r, k) == Get(k)
    {
      var r := seq(|order|, i requires 0 <= i < |order| => assert order[i] in order; BufferEntry(order[i], counts[order[i]]));
      SnapshotCounts(this, r);
      r
    }

    /** Total number of buffered votes. */
    function Total(): int
      requires Valid()
    {
      Sum(Entries())
    }
  }

  /** `new Map()` and the state after `clear()`. */
  const EmptyBuffer: VoteBuffer := VoteBuffer([], map[])

  /** A sequence listing a buffer's keys in order, each with its value, holds each key's value once. */
  lemma SnapshotCounts(b: VoteBuffer, s: seq<BufferEntry>)
    requires b.Valid()
    requires |s| == |b.order|
    requires forall i :: 0 <= i < |s| ==> s[i].optionId == b.order[i] && s[i].count == b.Get(b.order[i])
    ensures DistinctIds(s)
    ensures forall k :: CountFor(s, k) == b.Get(k)
  {
    forall k ensures CountFor(s, k) == b.Get(k) {
      if k in b.counts {
        var j :| 0 <= j < |b.order| && b.order[j] == k;
        CountForDistinct(s, j);
      } else {
        CountForAbsent(s, k);
      }
    }
  }

  /** A valid buffer of size zero is the empty map. */
  lemma SizeZeroIsEmpty(b: VoteBuffer)
    requires b.Valid() && b.Size() == 0
    ensures b == EmptyBuffer && b.Entries() == []
  {
  }

  lemma {:induction false} SumSnoc(s: seq<BufferEntry>, e: BufferEntry)
    ensures Sum(s + [e]) == Sum(s) + e.count
    ensures CountFor(s + [e], e.optionId) == CountFor(s, e.optionId) + e.count
  {
  }

  lemma {:induction false} SumUpdate(s: seq<BufferEntry>, j: nat, e: BufferEntry)
    requires j < |s|
    ensures Sum(s[j := e]) == Sum(s) - s[j].count + e.count
    decreases |s|
  {
    var n := |s|;
    if j == n - 1 {
      assert s[j := e][..n - 1] == s[..n - 1];
    } else {
      assert s[j := e][..n - 1] == s[..n - 1][j := e];
      SumUpdate(s[..n - 1], j, e);
    }
  }

  /** The snapshot after `set` of a key already present: that one entry changes in place. */
  lemma EntriesSetPresent(b: VoteBuffer, k: string, v: int, j: nat)
    requires b.Valid() && v >= 1 && j < |b.order| && b.order[j] == k
    ensures b.Set(k, v).Entries() == b.Entries()[j := BufferEntry(k, v)]
  {
    var s, t := b.Entries(), b.Set(k, v).Entries();
    forall i | 0 <= i < |t| ensures t[i] == s[j := BufferEntry(k, v)][i] {
    }
  }

  /** The snapshot after `set` of a new key: one entry is appended. */
  lemma EntriesSetAbsent(b: VoteBuffer, k: string, v: int)
    requires b.Valid() && v >= 1 && k !in b.counts
    ensures b.Set(k, v).Entries() == b.Entries() + [BufferEntry(k, v)]
  {
    var s, t := b.Entries(), b.Set(k, v).Entries();
    forall i | 0 <= i < |t| ensures t[i] == (s + [BufferEntry(k, v)])[i] {
    }
  }

  /** Setting a key moves the total by the change of that key's value. */
  lemma SetTotal(b: VoteBuffer, k: string, v: int)
    requires b.Valid() && v >= 1
    ensures b.Set(k, v).Total() == b.Total() - b.Get(k) + v
  {
    var s := b.Entries();
    if k in b.counts {
      var j :| 0 <= j < |b.order| && b.order[j] == k;
      EntriesSetPresent(b, k, v, j);
      SumUpdate(s, j, BufferEntry(k, v));
    } else {
      EntriesSetAbsent(b, k, v);
      SumSnoc(s, BufferEntry(k, v));
    }
  }

  // ---------------------------------------------------------------------------
  // handleVote
  // ---------------------------------------------------------------------------

  /**
   * The buffer after `handleVote(data)`: a payload without a truthy
   * `optionId` is ignored; otherwise that option's count goes up by one.
   */
  function Ingest(b: VoteBuffer, data: VotePayload): (r: VoteBuffer)
    requires b.Valid()
    ensures r.Valid()
    ensures !HasOptionId(data) ==> r == b
    ensures HasOptionId(data) ==>
      var o := data.optionId.value;
      && r.Get(o) == b.Get(o) + 1
      && (forall k :: k != o ==> r.Get(k) == b.Get(k))
      && r.order == (if o in b.order then b.order else b.order + [o])
  {
    if !HasOptionId(data) then b
    else
      var optionId := data.optionId.value;
      var current := b.Get(optionId);
      b.Set(optionId, current + 1)
  }

  /** The buffer after `handleVote` on each payload of `ps`, in order. */
  function IngestAll(b: VoteBuffer, ps: seq<VotePayload>): (r: VoteBuffer)
    requires b.Valid()
    ensures r.Valid()
    decreases |ps|
  {
    if ps == [] then b else Ingest(IngestAll(b, ps[..|ps| - 1]), ps[|ps| - 1])
  }

  /** Number of payloads of `ps` that carry a truthy option id. */
  function Accepted(ps: seq<VotePayload>): nat
  {
    if ps == [] then 0 else Accepted(ps[..|ps| - 1]) + (if HasOptionId(ps[|ps| - 1]) then 1 else 0)
  }

  /** Number of payloads of `ps` that vote for option `o`. */
  function Votes(ps: seq<VotePayload>, o: string): nat
  {
    if ps == [] then 0 else Votes(ps[..|ps| - 1], o) + (if ps[|ps| - 1].optionId == Some(o) then 1 else 0)
  }

  /** One accepted vote adds exactly one to the buffer's total; an ignored one adds nothing. */
  lemma IngestTotal(b: VoteBuffer, data: VotePayload)
    requires b.Valid()
    ensures Ingest(b, data).Total() == b.Total() + (if HasOptionId(data) then 1 else 0)
  {
    if HasOptionId(data) {
      var o := data.optionId.value;
      SetTotal(b, o, b.Get(o) + 1);
    }
  }

  /** After a run of `handleVote` calls, each option's count has grown by the votes for it. */
  lemma {:induction false} BufferCountsVotes(b: VoteBuffer, ps: seq<VotePayload>, o: string)
    requires b.Valid()
    requires o != ""
    ensures IngestAll(b, ps).Get(o) == b.Get(o) + Votes(ps, o)
    decreases |ps|
  {
    if ps != [] {
      BufferCountsVotes(b, ps[..|ps| - 1], o);
    }
  }

  /** The buffer's total grows by exactly the number of accepted votes. */
  lemma {:induction false} BufferTotalCountsAccepted(b: VoteBuffer, ps: seq<VotePayload>)
    requires b.Valid()
    ensures IngestAll(b, ps).Total() == b.Total() + Accepted(ps)
    decreases |ps|
  {
    if ps != [] {
      BufferTotalCountsAccepted(b, ps[..|ps| - 1]);
      IngestTotal(IngestAll(b, ps[..|ps| - 1]), ps[|ps| - 1]);
    }
  }

  /**
   * From an empty buffer, k votes for one option leave that option at k and
   * the whole buffer at k.
   */
  lemma {:induction false} RepeatedVotes(ps: seq<VotePayload>, o: string)
    requires o != ""
    requires forall i :: 0 <= i < |ps| ==> ps[i] == VotePayload(Some(o))
    ensures IngestAll(EmptyBuffer, ps).Get(o) == |ps|
    ensures IngestAll(EmptyBuffer, ps).Total() == |ps|
    ensures IngestAll(EmptyBuffer, ps).order == if ps == [] then [] else [o]
  {
    BufferCountsVotes(EmptyBuffer, ps, o);
    BufferTotalCountsAccepted(EmptyBuffer, ps);
    AllSameVotes(ps, o);
    assert EmptyBuffer.Entries() == [];
  }

  lemma {:induction false} AllSameVotes(ps: seq<VotePayload>, o: string)
    requires o != ""
    requires forall i :: 0 <= i < |ps| ==> ps[i] == VotePayload(Some(o))
    ensures Votes(ps, o) == |ps| && Accepted(ps) == |ps|
    ensures IngestAll(EmptyBuffer, ps).order == if ps == [] then [] else [o]
    decreases |ps|
  {
    if ps != [] {
      AllSameVotes(ps[..|ps| - 1], o);
    }
  }

  // ---------------------------------------------------------------------------
  // flushVotes
  // ---------------------------------------------------------------------------

  /** What one flush leaves behind: the option table and the events it emitted. */
  datatype FlushResult = FlushResult(options: map<string, OptionRow>, events: seq<UpdateEvent>)

  /**
   * Whether `prisma.option.update` on `id` succeeds: the row must exist and the
   * store must be reachable for it (`unavailable` names the ids whose update throws).
   */
  predicate Commits(options: map<string, OptionRow>, id: string, unavailable: set<string>)
  {
    id in options && id !in unavailable
  }

  /** The atomic increment: the updated row, or `None` when the update throws. */
  function Increment(options: map<string, OptionRow>, id: string, count: int, unavailable: set<string>): (r: Option<OptionRow>)
    ensures r.Some? <==> Commits(options, id, unavailable)
    ensures r.Some? ==> r.value.pollId == options[id].pollId && r.value.votes - options[id].votes == count
  {
    if Commits(options, id, unavailable) then Some(OptionRow(options[id].pollId, options[id].votes + count))
    else None
  }

  /** One iteration of the flush loop: increment, then emit the new total; on failure do nothing. */
  function FlushStep(f: FlushResult, e: BufferEntry, unavailable: set<string>): (r: FlushResult)
    ensures r.options.Keys == f.options.Keys
  {
    match Increment(f.options, e.optionId, e.count, unavailable)
    case None => f
    case Some(row) =>
      FlushResult(f.options[e.optionId := row], f.events + [UpdateEvent(e.optionId, row.pollId, row.votes)])
  }

  /**
   * One iteration touches only its own option: a successful increment adds
   * the entry's count to that row and emits exactly one event for it after the
   * earlier ones; a failed one changes nothing.
   */
  lemma FlushStepEffect(f: FlushResult, e: BufferEntry, unavailable: set<string>)
    ensures var r := FlushStep(f, e, unavailable);
      && (forall o :: o in f.options && o != e.optionId ==> r.options[o] == f.options[o])
      && (Commits(f.options, e.optionId, unavailable) ==>
            && r.options[e.optionId].votes == f.options[e.optionId].votes + e.count
            && r.events == f.events + [UpdateEvent(e.optionId, f.options[e.optionId].pollId, r.options[e.optionId].votes)])
      && (!Commits(f.options, e.optionId, unavailable) ==> r == f)
  {
  }

  /** The flush loop run over the snapshot `s`, from the first entry to the last. */
  function Flushed(options: map<string, OptionRow>, s: seq<BufferEntry>, unavailable: set<string>): (r: FlushResult)
    ensures r.options.Keys == options.Keys
    decreases |s|
  {
    if s == [] then FlushResult(options, [])
    else FlushStep(Flushed(options, s[..|s| - 1], unavailable), s[|s| - 1], unavailable)
  }

  /** One more loop iteration extends the flush by one step. */
  lemma FlushedPrefix(options: map<string, OptionRow>, s: seq<BufferEntry>, i: nat, unavailable: set<string>)
    requires i < |s|
    ensures Flushed(options, s[..i + 1], unavailable) == FlushStep(Flushed(options, s[..i], unavailable), s[i], unavailable)
  {
    assert s[..i + 1][..i] == s[..i];
  }

  /** The snapshot entries whose increment succeeds, in snapshot order. */
  function Committed(options: map<string, OptionRow>, s: seq<BufferEntry>, unavailable: set<string>): (r: seq<BufferEntry>)
    ensures |r| <= |s|
    ensures forall i :: 0 <= i < |r| ==> r[i] in s && Commits(options, r[i].optionId, unavailable)
    decreases |s|
  {
    if s == [] then []
    else
      var rest := Committed(options, s[..|s| - 1], unavailable);
      if Commits(options, s[|s| - 1].optionId, unavailable) then rest + [s[|s| - 1]] else rest
  }

  /** The snapshot entries whose increment fails, in snapshot order. */
  function Dropped(options: map<string, OptionRow>, s: seq<BufferEntry>, unavailable: set<string>): (r: seq<BufferEntry>)
    ensures |r| <= |s|
    ensures forall i :: 0 <= i < |r| ==> r[i] in s && !Commits(options, r[i].optionId, unavailable)
    decreases |s|
  {
    if s == [] then []
    else
      var rest := Dropped(options, s[..|s| - 1], unavailable);
      if Commits(options, s[|s| - 1].optionId, unavailable) then rest else rest + [s[|s| - 1]]
  }

  /** Every snapshot entry whose update succeeds is among the committed entries. */
  lemma {:induction false} CommittedComplete(options: map<string, OptionRow>, s: seq<BufferEntry>, unavailable: set<string>)
    ensures forall e :: e in s && Commits(options, e.optionId, unavailable) ==> e in Committed(options, s, unavailable)
    decreases |s|
  {
    if s != [] {
      CommittedComplete(options, s[..|s| - 1], unavailable);
      forall e | e in s && Commits(options, e.optionId, unavailable)
        ensures e in Committed(options, s, unavailable)
      {
        if e != s[|s| - 1] {
          assert e in s[..|s| - 1];
        }
      }
    }
  }

  /** Every snapshot entry whose update throws is among the dropped entries. */
  lemma {:induction false} DroppedComplete(options: map<string, OptionRow>, s: seq<BufferEntry>, unavailable: set<string>)
    ensures forall e :: e in s && !Commits(options, e.optionId, unavailable) ==> e in Dropped(options, s, unavailable)
    decreases |s|
  {
    if s != [] {
      DroppedComplete(options, s[..|s| - 1], unavailable);
      forall e | e in s && !Commits(options, e.optionId, unavailable)
        ensures e in Dropped(options, s, unavailable)
      {
        if e != s[|s| - 1] {
          assert e in s[..|s| - 1];
        }
      }
    }
  }

  /**
   * Per option, a flush adds every count the snapshot holds for it when its
   * increment succeeds, and leaves it unchanged when it fails; options not in
   * the snapshot keep their votes, and no row is created or removed.
   */
  lemma {:induction false} FlushAddsCommittedCounts(options: map<string, OptionRow>, s: seq<BufferEntry>, unavailable: set<string>)
    ensures forall o :: o in options ==>
      Flushed(options, s, unavailable).options[o]
        == OptionRow(options[o].pollId, options[o].votes + (if o in unavailable then 0 else CountFor(s, o)))
    decreases |s|
  {
    if s != [] {
      FlushAddsCommittedCounts(options, s[..|s| - 1], unavailable);
    }
  }

  lemma {:induction false} CountForAbsent(s: seq<BufferEntry>, o: string)
    requires forall i :: 0 <= i < |s| ==> s[i].optionId != o
    ensures CountFor(s, o) == 0
    decreases |s|
  {
    if s != [] {
      CountForAbsent(s[..|s| - 1], o);
    }
  }

  lemma {:induction false} CountForDistinct(s: seq<BufferEntry>, j: nat)
    requires DistinctIds(s)
    requires j < |s|
    ensures CountFor(s, s[j].optionId) == s[j].count
    decreases |s|
  {
    var n := |s|;
    if j == n - 1 {
      CountForAbsent(s[..n - 1], s[j].optionId);
    } else {
      CountForDistinct(s[..n - 1], j);
    }
  }

  /**
   * With distinct ids (a snapshot of a `Map`), the flush emits exactly one
   * event per committed entry, in snapshot order, and each event carries the
   * option's poll and its stored total after the flush.
   */
  lemma {:induction false} FlushEventsFollowCommits(options: map<string, OptionRow>, s: seq<BufferEntry>, unavailable: set<string>)
    requires DistinctIds(s)
    ensures var f := Flushed(options, s, unavailable);
      var c := Committed(options, s, unavailable);
      && |f.events| == |c| <= |s|
      && forall i :: 0 <= i < |c| ==>
           && c[i].optionId in f.options
           && f.events[i] == UpdateEvent(c[i].optionId, options[c[i].optionId].pollId, f.options[c[i].optionId].votes)
    decreases |s|
  {
    if s != [] {
      var n := |s|;
      var s', e := s[..n - 1], s[n - 1];
      assert DistinctIds(s');
      FlushEventsFollowCommits(options, s', unavailable);
      FlushAddsCommittedCounts(options, s', unavailable);
      var f', c' := Flushed(options, s', unavailable), Committed(options, s', unavailable);
      var f, c := Flushed(options, s, unavailable), Committed(options, s, unavailable);
      if Commits(options, e.optionId, unavailable) {
        var row := OptionRow(f'.options[e.optionId].pollId, f'.options[e.optionId].votes + e.count);
        assert f == FlushResult(f'.options[e.optionId := row], f'.events + [UpdateEvent(e.optionId, row.pollId, row.votes)]);
        assert c == c' + [e];
        CountForAbsent(s', e.optionId);
        forall i | 0 <= i < |c'| ensures f.options[c'[i].optionId] == f'.options[c'[i].optionId] {
          var j :| 0 <= j < n - 1 && s'[j] == c'[i];
          assert s[j] == c'[i];
        }
      } else {
        assert f == f' && c == c';
      }
    }
  }

  /** Each event's new total is the option's total before the flush plus the entry's count. */
  lemma EventsCarryNewTotals(options: map<string, OptionRow>, s: seq<BufferEntry>, unavailable: set<string>)
    requires DistinctIds(s)
    ensures var f := Flushed(options, s, unavailable);
      var c := Committed(options, s, unavailable);
      && |f.events| == |c|
      && forall i :: 0 <= i < |c| ==> f.events[i].newCount == options[c[i].optionId].votes + c[i].count
  {
    FlushEventsFollowCommits(options, s, unavailable);
    FlushAddsCommittedCounts(options, s, unavailable);
    var c := Committed(options, s, unavailable);
    forall i | 0 <= i < |c| ensures CountFor(s, c[i].optionId) == c[i].count {
      var j :| 0 <= j < |s| && s[j] == c[i];
      CountForDistinct(s, j);
    }
  }

  /** Every buffered vote is either committed or dropped: the two parts sum to the snapshot. */
  lemma {:induction false} FlushSplitsSnapshot(options: map<string, OptionRow>, s: seq<BufferEntry>, unavailable: set<string>)
    ensures Sum(Committed(options, s, unavailable)) + Sum(Dropped(options, s, unavailable)) == Sum(s)
    decreases |s|
  {
    if s != [] {
      var e := s[|s| - 1];
      FlushSplitsSnapshot(options, s[..|s| - 1], unavailable);
      if Commits(options, e.optionId, unavailable) {
        SumSnoc(Committed(options, s[..|s| - 1], unavailable), e);
      } else {
        SumSnoc(Dropped(options, s[..|s| - 1], unavailable), e);
      }
    }
  }

  /**
   * Flushing a buffer's snapshot never lowers an option's votes and never
   * removes a row: buffered counts are positive, and a failed increment
   * leaves its row as it was.
   */
  lemma FlushNeverLowersVotes(b: VoteBuffer, options: map<string, OptionRow>, unavailable: set<string>)
    requires b.Valid()
    ensures var f := Flushed(options, b.Entries(), unavailable);
      forall o :: o in options ==> o in f.options && f.options[o].votes >= options[o].votes
  {
    FlushAddsCommittedCounts(options, b.Entries(), unavailable);
  }

  /**
   * From an empty buffer, the votes handled before a flush reach the option
   * table whole: each reachable option gains exactly the number of votes for it.
   */
  lemma IngestThenFlush(ps: seq<VotePayload>, options: map<string, OptionRow>, unavailable: set<string>, o: string)
    requires o in options && o != ""
    ensures var f := Flushed(options, IngestAll(EmptyBuffer, ps).Entries(), unavailable);
      f.options[o].votes == options[o].votes + (if o in unavailable then 0 else Votes(ps, o))
  {
    var b := IngestAll(EmptyBuffer, ps);
    FlushAddsCommittedCounts(options, b.Entries(), unavailable);
    BufferCountsVotes(EmptyBuffer, ps, o);
  }

  // ---------------------------------------------------------------------------
  // The controller
  // ---------------------------------------------------------------------------

  /**
   * The aggregator controller with its collaborators' state: the vote buffer
   * it owns, the durable `option` table and the `poll-updates` topic.
   */
  class PollAggregatorController {
    var voteBuffer: VoteBuffer
    var options: map<string, OptionRow>
    var pollUpdates: seq<UpdateEvent>

    ghost predicate Valid()
      reads this
    {
      voteBuffer.Valid()
    }

    constructor (table: map<string, OptionRow>)
      ensures Valid()
      ensures voteBuffer == EmptyBuffer && options == table && pollUpdates == []
    {
      voteBuffer := EmptyBuffer;
      options := table;
      pollUpdates := [];
    }

    /** Buffers one `raw-votes` message; the table and the topic are untouched. */
    method HandleVote(data: VotePayload)
      requires Valid()
      modifies this
      ensures Valid()
      ensures voteBuffer == Ingest(old(voteBuffer), data)
      ensures options == old(options) && pollUpdates == old(pollUpdates)
    {
      if !HasOptionId(data) {
        return;
      }
      var optionId := data.optionId.value;
      var current := voteBuffer.Get(optionId);
      voteBuffer := voteBuffer.Set(optionId, current + 1);
    }

    /**
     * Snapshots and clears the buffer, then applies the snapshot to the table
     * and the topic.
     */
    method FlushVotes(unavailable: set<string>)
      requires Valid()
      modifies this
      ensures Valid() && voteBuffer == EmptyBuffer
      ensures old(voteBuffer.Size()) == 0 ==> options == old(options) && pollUpdates == old(pollUpdates)
      ensures var f := Flushed(old(options), old(voteBuffer.Entries()), unavailable);
        options == f.options && pollUpdates == old(pollUpdates) + f.events
      ensures forall o :: o in old(options) ==> o in options && options[o].votes >= old(options)[o].votes
    {
      if voteBuffer.Size() == 0 {
        SizeZeroIsEmpty(voteBuffer);
        return;
      }
      ghost var snapshot, table := voteBuffer, options;
      var updates := voteBuffer.Entries();
      voteBuffer := EmptyBuffer;
      ApplyUpdates(updates, unavailable);
      FlushNeverLowersVotes(snapshot, table, unavailable);
    }

    /**
     * The flush loop: increments each snapshot entry's option in insertion
     * order and emits its new total; a failed increment is dropped and the
     * loop goes on with the next entry. The buffer is not touched.
     */
    method ApplyUpdates(updates: seq<BufferEntry>, unavailable: set<string>)
      modifies this
      ensures voteBuffer == old(voteBuffer)
      ensures var f := Flushed(old(options), updates, unavailable);
        options == f.options && pollUpdates == old(pollUpdates) + f.events
    {
      ghost var table, topic := options, pollUpdates;
      ghost var done := Flushed(table, [], unavailable);
      var i := 0;
      while i < |updates|
        invariant 0 <= i <= |updates|
        invariant voteBuffer == old(voteBuffer)
        invariant done == Flushed(table, updates[..i], unavailable)
        invariant options == done.options && pollUpdates == topic + done.events
      {
        var optionId, count := updates[i].optionId, updates[i].count;
        FlushedPrefix(table, updates, i, unavailable);
        var updated := Increment(options, optionId, count, unavailable);
        if updated.Some? {
          var row := updated.value;
          options := options[optionId := row];
          pollUpdates := pollUpdates + [UpdateEvent(optionId, row.pollId, row.votes)];
        }
        done := FlushStep(done, updates[i], unavailable);
        i := i + 1;
      }
      assert updates[..i] == updates;
    }
  }
}
