/**
 * The two services joined by the `raw-votes` topic: the aggregator's handler
 * receives the value of each record the voting service appends.
 */
module Pipeline {
  import opened Wrappers
  import PollAggregator
  import VotingApi

  /** The payload the aggregator's handler receives for one log record. */
  function Payload(r: VotingApi.LogRecord): (p: PollAggregator.VotePayload)
    ensures PollAggregator.HasOptionId(p) <==> r.value.optionId != ""
  {
    PollAggregator.VotePayload(Some(r.value.optionId))
  }

  /** The payloads delivered for `log`, in log order. */
  function Payloads(log: seq<VotingApi.LogRecord>): (ps: seq<PollAggregator.VotePayload>)
    ensures |ps| == |log|
    decreases |log|
  {
    if log == [] then [] else Payloads(log[..|log| - 1]) + [Payload(log[|log| - 1])]
  }

  /** Number of records of `log` that vote for option `o`. */
  function RecordsForOption(log: seq<VotingApi.LogRecord>, o: string): nat
  {
    if log == [] then 0
    else RecordsForOption(log[..|log| - 1], o) + (if log[|log| - 1].value.optionId == o then 1 else 0)
  }

  lemma {:induction false} PayloadVotes(log: seq<VotingApi.LogRecord>, o: string)
    ensures PollAggregator.Votes(Payloads(log), o) == RecordsForOption(log, o)
    decreases |log|
  {
    if log != [] {
      var ps := Payloads(log);
      assert ps[..|ps| - 1] == Payloads(log[..|log| - 1]);
      PayloadVotes(log[..|log| - 1], o);
    }
  }

  /**
   * Every record queued for a non-empty option id, once handled by a fresh
   * aggregator and flushed against a reachable table, adds one vote to that
   * option: the option gains exactly the number of records that name it.
   */
  lemma QueuedVotesReachTable(log: seq<VotingApi.LogRecord>, options: map<string, PollAggregator.OptionRow>, o: string)
    requires o in options && o != ""
    ensures var b := PollAggregator.IngestAll(PollAggregator.EmptyBuffer, Payloads(log));
      PollAggregator.Flushed(options, b.Entries(), {}).options[o].votes == options[o].votes + RecordsForOption(log, o)
  {
    PollAggregator.IngestThenFlush(Payloads(log), options, {}, o);
    PayloadVotes(log, o);
  }
}
