/** The tracker of the load generator: counters on the heap, updated in place by every packet. */
module DnsTracker {
  import opened GoStrings
  import opened WireName
  import opened DnsMessage
  import opened Counting

  class CounterMap {
    var counts: map<string, Counter>
    /** The one candidate this map belongs to. */
    ghost const key: CandidateKey

    constructor (ghost key: CandidateKey)
      ensures counts == map[] && this.key == key
    {
      counts, this.key := map[], key;
    }
  }

  class CandidateStats {
    var requests: Counter
    var responses: Counter
    const rcodes: CounterMap
    ghost const key: CandidateKey

    constructor (ghost key: CandidateKey)
      ensures requests == 0 && responses == 0 && rcodes.counts == map[]
      ensures this.key == rcodes.key == key && fresh(rcodes)
    {
      requests, responses, this.key := 0, 0, key;
      rcodes := new CounterMap(key);
    }

    ghost predicate Shows(stats: Stats)
      reads this, rcodes
    {
      requests == stats.requests && responses == stats.responses && rcodes.counts == stats.rcodes
    }
  }

  /** A line of the snapshot; its response codes are a map of its own. */
  datatype CandidateResult = CandidateResult(name: string, qtype: string, requests: Counter, responses: Counter,
                                             rcodes: CounterMap)

  ghost function RowOf(r: CandidateResult): Row
    reads r.rcodes
  {
    Row(r.name, r.qtype, r.requests, r.responses, r.rcodes.counts)
  }

  // ---------- sorting the snapshot ----------

  function PairIn(r: CandidateResult): NameAndType {
    (r.name, r.qtype)
  }

  function Pairs(results: seq<CandidateResult>): (pairs: seq<NameAndType>)
    ensures |pairs| == |results|
    ensures forall i :: 0 <= i < |pairs| ==> pairs[i] == PairIn(results[i])
  {
    seq(|results|, i requires 0 <= i < |results| => PairIn(results[i]))
  }

  /** slices.SortFunc with the snapshot's comparator. The lines have different pairs, so any sort
      that uses this comparator gives the same list. */
  function SortFunc(results: seq<CandidateResult>): seq<CandidateResult> {
    if results == [] then [] else InsertResult(results[0], SortFunc(results[1..]))
  }

  function InsertResult(r: CandidateResult, sorted: seq<CandidateResult>): seq<CandidateResult> {
    if sorted == [] || ComparePairs(PairIn(r), PairIn(sorted[0])) < 0 then [r] + sorted
    else [sorted[0]] + InsertResult(r, sorted[1..])
  }

  lemma {:induction false} SortFuncSorts(results: seq<CandidateResult>)
    requires Distinct(Pairs(results))
    ensures StrictlySorted(Pairs(SortFunc(results)))
    ensures forall p :: p in Pairs(SortFunc(results)) <==> p in Pairs(results)
    ensures forall r :: r in SortFunc(results) <==> r in results
  {
    if results != [] {
      var first, rest := results[0], results[1..];
      FirstPair(results);
      SortFuncSorts(rest);
      InsertSorts(first, SortFunc(rest));
    }
  }

  lemma FirstPair(results: seq<CandidateResult>)
    requires results != [] && Distinct(Pairs(results))
    ensures PairIn(results[0]) !in Pairs(results[1..]) && Distinct(Pairs(results[1..]))
    ensures forall p :: p in Pairs(results) <==> p == PairIn(results[0]) || p in Pairs(results[1..])
    ensures forall r :: r in results <==> r == results[0] || r in results[1..]
  {
    assert Pairs(results[1..]) == Pairs(results)[1..];
    HeadOrTail(Pairs(results));
    DistinctTail(Pairs(results));
    HeadOrTail(results);
  }

  lemma HeadOrTail<T>(s: seq<T>)
    requires s != []
    ensures forall x :: x in s <==> x == s[0] || x in s[1..]
  {
    assert s == [s[0]] + s[1..];
  }

  lemma DistinctTail(pairs: seq<NameAndType>)
    requires pairs != [] && Distinct(pairs)
    ensures pairs[0] !in pairs[1..] && Distinct(pairs[1..])
  {
  }

  lemma InsertSorts(r: CandidateResult, sorted: seq<CandidateResult>)
    requires StrictlySorted(Pairs(sorted)) && PairIn(r) !in Pairs(sorted)
    ensures StrictlySorted(Pairs(InsertResult(r, sorted)))
    ensures forall p :: p in Pairs(InsertResult(r, sorted)) <==> p == PairIn(r) || p in Pairs(sorted)
    ensures forall x :: x in InsertResult(r, sorted) <==> x == r || x in sorted
  {
    InsertResultInserts(r, sorted);
    InsertResultElements(r, sorted);
    InsertKeepsOrder(PairIn(r), Pairs(sorted));
  }

  lemma {:induction false} InsertResultInserts(r: CandidateResult, sorted: seq<CandidateResult>)
    requires PairIn(r) !in Pairs(sorted)
    ensures Pairs(InsertResult(r, sorted)) == Insert(PairIn(r), Pairs(sorted))
  {
    if sorted == [] || ComparePairs(PairIn(r), PairIn(sorted[0])) < 0 {
      assert Pairs([r] + sorted) == [PairIn(r)] + Pairs(sorted);
    } else {
      var rest := InsertResult(r, sorted[1..]);
      assert Pairs(sorted)[1..] == Pairs(sorted[1..]);
      assert Pairs(sorted)[0] == PairIn(sorted[0]);
      InsertResultInserts(r, sorted[1..]);
      assert Pairs([sorted[0]] + rest) == [PairIn(sorted[0])] + Pairs(rest);
    }
  }

  lemma {:induction false} InsertResultElements(r: CandidateResult, sorted: seq<CandidateResult>)
    ensures forall x :: x in InsertResult(r, sorted) <==> x == r || x in sorted
  {
    if sorted != [] {
      assert sorted == [sorted[0]] + sorted[1..];
      InsertResultElements(r, sorted[1..]);
    }
  }

  /** A line that shows what the trace says about a candidate that occurs in it. */
  ghost predicate CopyOf(r: CandidateResult, messages: seq<Message>)
    reads r.rcodes
  {
    RowOf(r) == RowFor(messages, PairIn(r)) && exists m :: m in messages && PairOf(m) == PairIn(r)
  }

  lemma KeysSplit(messages: seq<Message>, key: CandidateKey)
    requires key in Table(messages)
    ensures '\0' in key.text && KeyFor(SplitKey(key.text)) == key
    ensures exists m :: m in messages && PairOf(m) == SplitKey(key.text)
    ensures forall m :: m in messages && KeyOf(m) == key ==> PairOf(m) == SplitKey(key.text)
  {
    var m :| m in messages && KeyOf(m) == key;
    assert key.text[|m.name|] == '\0';
    assert PairOf(m) == SplitKey(key.text);
  }

  /** The right lines, once each and in any order, sort into the report. */
  lemma SortedLinesAreTheReport(messages: seq<Message>, copies: seq<CandidateResult>)
    requires Distinct(Pairs(copies))
    requires forall r :: r in copies ==> CopyOf(r, messages)
    requires forall m :: m in messages ==> PairOf(m) in Pairs(copies)
    ensures |SortFunc(copies)| == |Report(messages)|
    ensures forall i :: 0 <= i < |SortFunc(copies)| ==> RowOf(SortFunc(copies)[i]) == Report(messages)[i]
    ensures forall r :: r in SortFunc(copies) ==> r in copies
  {
    var results := SortFunc(copies);
    SortFuncSorts(copies);
    CandidatesAreSorted(messages);
    forall p
      ensures p in Pairs(results) <==> p in Candidates(messages)
    {
      if p in Pairs(results) {
        var i :| 0 <= i < |results| && Pairs(results)[i] == p;
        assert results[i] in copies && CopyOf(results[i], messages);
      }
    }
    SortedListIsUnique(Pairs(results), Candidates(messages));
    forall i | 0 <= i < |results|
      ensures RowOf(results[i]) == Report(messages)[i]
    {
      assert results[i] in copies && CopyOf(results[i], messages);
    }
  }

  lemma {:induction false} OrderedLikeTheReport(results: seq<CandidateResult>, trace: seq<Observed>)
    requires |results| == |Report(Messages(trace))|
    requires forall i :: 0 <= i < |results| ==> RowOf(results[i]) == Report(Messages(trace))[i]
    ensures IsReportOf(Report(Messages(trace)), trace)
    ensures forall i, j :: 0 <= i < j < |results| ==>
              || Precedes(results[i].name, results[j].name)
              || (results[i].name == results[j].name && Precedes(results[i].qtype, results[j].qtype))
  {
    ReportIsRight(trace);
    var rows := Report(Messages(trace));
    forall i, j | 0 <= i < j < |results|
      ensures ComesFirst(PairIn(results[i]), PairIn(results[j]))
    {
      assert RowOf(results[i]) == rows[i] && RowOf(results[j]) == rows[j];
    }
  }

  /** The candidates whose keys are not left have been copied. */
  ghost predicate Copied(messages: seq<Message>, copies: seq<CandidateResult>, left: set<CandidateKey>)
    reads set r | r in copies :: r.rcodes
  {
    && Distinct(Pairs(copies))
    && (forall r :: r in copies ==> CopyOf(r, messages) && KeyFor(PairIn(r)) !in left)
    && forall m :: m in messages ==> KeyOf(m) in left || PairOf(m) in Pairs(copies)
  }

  lemma OneMoreCopy(messages: seq<Message>, copies: seq<CandidateResult>, left: set<CandidateKey>, copy: CandidateResult)
    requires Copied(messages, copies, left)
    requires CopyOf(copy, messages) && KeyFor(PairIn(copy)) in left
    requires forall m :: m in messages && KeyOf(m) == KeyFor(PairIn(copy)) ==> PairOf(m) == PairIn(copy)
    ensures Copied(messages, copies + [copy], left - {KeyFor(PairIn(copy))})
  {
    var more := copies + [copy];
    assert Pairs(more) == Pairs(copies) + [PairIn(copy)];
    forall i | 0 <= i < |copies|
      ensures Pairs(copies)[i] != PairIn(copy)
    {
      assert copies[i] in copies;
    }
    forall m | m in messages
      ensures KeyOf(m) in left - {KeyFor(PairIn(copy))} || PairOf(m) in Pairs(more)
    {
      if KeyOf(m) == KeyFor(PairIn(copy)) {
        assert Pairs(more)[|copies|] == PairOf(m);
      }
    }
  }

  lemma UpdateTwice(table: map<CandidateKey, Stats>, key: CandidateKey, first: Stats, second: Stats)
    ensures table[key := first][key := second] == table[key := second]
  {
  }

  lemma UpdateSame(table: map<CandidateKey, Stats>, key: CandidateKey)
    requires key in table
    ensures table[key := StatsIn(table, key)] == table
  {
  }

  /** The counters agree with a list of messages. */
  ghost predicate Agree(messages: seq<Message>, requests: Counter, responses: Counter, nxdomain: Counter,
                        table: map<CandidateKey, Stats>) {
    && requests == Requests.Value(messages)
    && responses == Responses.Value(messages)
    && nxdomain == NXDomains.Value(messages)
    && table == Table(messages)
  }

  lemma AgreeAfterRequest(trace: seq<Observed>, o: Observed, m: Message, requests: Counter, responses: Counter,
                          nxdomain: Counter, table: map<CandidateKey, Stats>)
    requires Agree(Messages(trace), requests, responses, nxdomain, table)
    requires Counted(o) == [m] && !m.response
    ensures Agree(Messages(trace + [o]), Increment(requests), responses, nxdomain,
                  table[KeyOf(m) := StatsIn(table, KeyOf(m)).Requested()])
  {
    var messages := Messages(trace);
    MessagesNext(trace, o);
    Requests.Next(messages, m);
    Responses.Next(messages, m);
    NXDomains.Next(messages, m);
    TableNext(messages, m);
  }

  lemma AgreeAfterResponse(trace: seq<Observed>, o: Observed, m: Message, requests: Counter, responses: Counter,
                           nxdomain: Counter, table: map<CandidateKey, Stats>)
    requires Agree(Messages(trace), requests, responses, nxdomain, table)
    requires Counted(o) == [m] && m.response
    ensures Agree(Messages(trace + [o]), requests, Increment(responses),
                  if m.rcode == "NXDOMAIN" then Increment(nxdomain) else nxdomain,
                  table[KeyOf(m) := StatsIn(table, KeyOf(m)).Responded(m.rcode)])
  {
    var messages := Messages(trace);
    MessagesNext(trace, o);
    Requests.Next(messages, m);
    Responses.Next(messages, m);
    NXDomains.Next(messages, m);
    TableNext(messages, m);
  }

  lemma NothingCounted(trace: seq<Observed>, o: Observed)
    requires Counted(o) == []
    ensures Messages(trace + [o]) == Messages(trace)
  {
    MessagesNext(trace, o);
  }

  class Tracker {
    var requests: Counter
    var responses: Counter
    var nxdomain: Counter
    var candidates: map<CandidateKey, CandidateStats>
    /** Every packet handed to the tracker, in order. */
    ghost var trace: seq<Observed>
    /** The counters on the heap, as values, and the objects that hold them. */
    ghost var table: map<CandidateKey, Stats>
    ghost var Repr: set<object>

    /** The table shows what the candidates hold; their keys tell their objects apart, so no two
        candidates share one. */
    ghost predicate Shape()
      reads this`candidates, this`table, this`Repr, Repr - {this}
    {
      && this in Repr
      && candidates.Keys == table.Keys
      && forall k :: k in candidates ==>
           var c := candidates[k];
           c in Repr && c.rcodes in Repr && c.key == c.rcodes.key == k && c.Shows(table[k])
    }

    /** Every counter says what the trace says. */
    ghost predicate Valid()
      reads this, Repr
    {
      Shape() && Agree(Messages(trace), requests, responses, nxdomain, table)
    }

    constructor ()
      ensures Valid() && trace == [] && fresh(Repr)
    {
      requests, responses, nxdomain, candidates := 0, 0, 0, map[];
      trace, table, Repr := [], map[], {this};
    }

    method RecordRequest(packet: seq<Byte>, tcpFramed: bool)
      requires Valid()
      modifies Repr
      ensures Valid() && fresh(Repr - old(Repr))
      ensures trace == old(trace) + [Observed(packet, tcpFramed, false)]
    {
      ghost var o := Observed(packet, tcpFramed, false);
      var parsed := Parse(packet, tcpFramed);
      if parsed.Some? && !parsed.value.response {
        AgreeAfterRequest(trace, o, parsed.value, requests, responses, nxdomain, table);
        CountRequest(parsed.value);
      } else {
        NothingCounted(trace, o);
      }
      Note(o);
    }

    method RecordResponse(packet: seq<Byte>, tcpFramed: bool)
      requires Valid()
      modifies Repr
      ensures Valid() && fresh(Repr - old(Repr))
      ensures trace == old(trace) + [Observed(packet, tcpFramed, true)]
    {
      ghost var o := Observed(packet, tcpFramed, true);
      var parsed := Parse(packet, tcpFramed);
      if parsed.Some? && parsed.value.response {
        AgreeAfterResponse(trace, o, parsed.value, requests, responses, nxdomain, table);
        CountResponse(parsed.value);
      } else {
        NothingCounted(trace, o);
      }
      Note(o);
    }

    /** The packet whose message has just been counted, or does not count, joins the trace. */
    ghost method Note(o: Observed)
      requires Shape() && Agree(Messages(trace + [o]), requests, responses, nxdomain, table)
      modifies this`trace
      ensures Valid() && trace == old(trace) + [o]
    {
      trace := trace + [o];
    }

    /** What recordRequest does under the lock. */
    method CountRequest(message: Message)
      requires Shape() && !message.response
      modifies this`requests, this`candidates, this`table, this`Repr, Repr - {this}
      ensures Shape() && fresh(Repr - old(Repr))
      ensures requests == Increment(old(requests))
      ensures table == old(table)[KeyOf(message) := StatsIn(old(table), KeyOf(message)).Requested()]
    {
      requests := Increment(requests);
      AddRequest(KeyOf(message));
    }

    /** What recordResponse does under the lock. */
    method CountResponse(message: Message)
      requires Shape() && message.response
      modifies this`responses, this`nxdomain, this`candidates, this`table, this`Repr, Repr - {this}
      ensures Shape() && fresh(Repr - old(Repr))
      ensures responses == Increment(old(responses))
      ensures nxdomain == if message.rcode == "NXDOMAIN" then Increment(old(nxdomain)) else old(nxdomain)
      ensures table == old(table)[KeyOf(message) := StatsIn(old(table), KeyOf(message)).Responded(message.rcode)]
    {
      responses := Increment(responses);
      if message.rcode == "NXDOMAIN" {
        nxdomain := Increment(nxdomain);
      }
      AddResponse(KeyOf(message), message.rcode);
    }

    /** Counts a request for a candidate, and nothing else. */
    method AddRequest(key: CandidateKey)
      requires Shape()
      modifies this`candidates, this`table, this`Repr, Repr - {this}
      ensures Shape() && fresh(Repr - old(Repr))
      ensures table == old(table)[key := StatsIn(old(table), key).Requested()]
    {
      UpdateTwice(table, key, StatsIn(table, key), StatsIn(table, key).Requested());
      var candidate := Candidate(key);
      IncrementRequests(key, candidate);
    }

    method IncrementRequests(ghost key: CandidateKey, candidate: CandidateStats)
      requires Shape() && key in candidates && candidates[key] == candidate
      modifies this`table, candidate`requests
      ensures Shape()
      ensures table == old(table)[key := old(table)[key].Requested()]
    {
      candidate.requests := Increment(candidate.requests);
      table := table[key := table[key].Requested()];
    }

    /** Counts a response for a candidate, and nothing else. */
    method AddResponse(key: CandidateKey, rcode: string)
      requires Shape()
      modifies this`candidates, this`table, this`Repr, Repr - {this}
      ensures Shape() && fresh(Repr - old(Repr))
      ensures table == old(table)[key := StatsIn(old(table), key).Responded(rcode)]
    {
      UpdateTwice(table, key, StatsIn(table, key), StatsIn(table, key).Responded(rcode));
      var candidate := Candidate(key);
      IncrementResponses(key, candidate, rcode);
    }

    method IncrementResponses(ghost key: CandidateKey, candidate: CandidateStats, rcode: string)
      requires Shape() && key in candidates && candidates[key] == candidate
      modifies this`table, candidate`responses, candidate.rcodes
      ensures Shape()
      ensures table == old(table)[key := old(table)[key].Responded(rcode)]
    {
      candidate.responses := Increment(candidate.responses);
      candidate.rcodes.counts := NextRCodes(candidate.rcodes.counts, rcode);
      table := table[key := table[key].Responded(rcode)];
    }

    /** The counters filed under a key, created at zero when it is new. */
    method Candidate(key: CandidateKey) returns (candidate: CandidateStats)
      requires Shape()
      modifies this`candidates, this`table, this`Repr
      ensures Shape() && fresh(Repr - old(Repr))
      ensures key in candidates && candidate == candidates[key]
      ensures table == old(table)[key := StatsIn(old(table), key)]
    {
      if key in candidates {
        UpdateSame(table, key);
        candidate := candidates[key];
      } else {
        candidate := AddCandidate(key);
      }
    }

    method AddCandidate(key: CandidateKey) returns (candidate: CandidateStats)
      requires Shape() && key !in candidates
      modifies this`candidates, this`table, this`Repr
      ensures Shape() && fresh(Repr - old(Repr))
      ensures candidates == old(candidates)[key := candidate] && table == old(table)[key := NO_STATS]
    {
      candidate := new CandidateStats(key);
      assert candidate.Shows(NO_STATS);
      candidates := candidates[key := candidate];
      table := table[key := NO_STATS];
      Repr := Repr + {candidate, candidate.rcodes};
      assert candidate.Shows(NO_STATS);
    }

    /** The totals and a sorted copy of the candidates. The map is walked in any order; the result
        is the report of the trace all the same: its numbers count the packets seen, and its lines
        come in the byte order of their names and, for one name, of their types. */
    method Snapshot() returns (requests: Counter, responses: Counter, nxdomain: Counter, results: seq<CandidateResult>)
      requires Valid()
      ensures Agree(Messages(trace), requests, responses, nxdomain, table)
      ensures |results| == |Report(Messages(trace))|
      ensures forall i :: 0 <= i < |results| ==> RowOf(results[i]) == Report(Messages(trace))[i]
      ensures IsReportOf(Report(Messages(trace)), trace)
      ensures forall i, j :: 0 <= i < j < |results| ==>
                || Precedes(results[i].name, results[j].name)
                || (results[i].name == results[j].name && Precedes(results[i].qtype, results[j].qtype))
      ensures requests == Hits(trace, false, None, None) % 0x1_0000_0000_0000_0000
      ensures responses == Hits(trace, true, None, None) % 0x1_0000_0000_0000_0000
      ensures nxdomain == Hits(trace, true, None, Some("NXDOMAIN")) % 0x1_0000_0000_0000_0000
      ensures forall r :: r in results ==> fresh(r.rcodes)
    {
      var copies := CopyCandidates();
      SortedLinesAreTheReport(Messages(trace), copies);
      OrderedLikeTheReport(SortFunc(copies), trace);
      TotalsAreHits(trace);
      return this.requests, this.responses, this.nxdomain, SortFunc(copies);
    }

    /** The loop over the map: one line for each candidate, in whatever order. */
    method CopyCandidates() returns (results: seq<CandidateResult>)
      requires Valid()
      ensures Distinct(Pairs(results))
      ensures forall r :: r in results ==> fresh(r.rcodes) && CopyOf(r, Messages(trace))
      ensures forall m :: m in Messages(trace) ==> PairOf(m) in Pairs(results)
    {
      results := [];
      var left := candidates.Keys;
      ghost var messages := Messages(trace);
      while left != {}
        invariant left <= candidates.Keys
        invariant Copied(messages, results, left)
        invariant forall r :: r in results ==> fresh(r.rcodes)
        decreases left
      {
        var key :| key in left;
        var copy := CopyCandidate(key);
        OneMoreCopy(messages, results, left, copy);
        results := results + [copy];
        left := left - {key};
      }
    }

    method CopyCandidate(key: CandidateKey) returns (copy: CandidateResult)
      requires Valid() && key in candidates
      ensures fresh(copy.rcodes) && CopyOf(copy, Messages(trace))
      ensures KeyFor(PairIn(copy)) == key
      ensures forall m :: m in Messages(trace) && KeyOf(m) == key ==> PairOf(m) == PairIn(copy)
    {
      var stats := candidates[key];
      KeysSplit(Messages(trace), key);
      var parts := SplitKey(key.text);
      var rcodes := new CounterMap(key);
      rcodes.counts := stats.rcodes.counts;
      copy := CandidateResult(parts.0, parts.1, stats.requests, stats.responses, rcodes);
    }
  }

  /** Any sequence of calls. */
  method RecordAll(tracker: Tracker, calls: seq<Observed>)
    requires tracker.Valid()
    modifies tracker.Repr
    ensures tracker.Valid() && tracker.trace == old(tracker.trace) + calls
  {
    for k := 0 to |calls|
      invariant tracker.Valid() && fresh(tracker.Repr - old(tracker.Repr))
      invariant tracker.trace == old(tracker.trace) + calls[..k]
    {
      TraceGrows(tracker.trace, old(tracker.trace), calls, k);
      if calls[k].response {
        tracker.RecordResponse(calls[k].packet, calls[k].tcpFramed);
      } else {
        tracker.RecordRequest(calls[k].packet, calls[k].tcpFramed);
      }
    }
    assert calls[..|calls|] == calls;
  }

  /** A snapshot is detached: whatever is recorded afterwards, it still is the report of the packets
      seen when it was taken, while the tracker goes on counting. */
  method RecordAfterSnapshot(tracker: Tracker, later: seq<Observed>) returns (results: seq<CandidateResult>)
    requires tracker.Valid()
    modifies tracker.Repr
    ensures tracker.Valid() && tracker.trace == old(tracker.trace) + later
    ensures |results| == |Report(Messages(old(tracker.trace)))|
    ensures forall i :: 0 <= i < |results| ==> RowOf(results[i]) == Report(Messages(old(tracker.trace)))[i]
  {
    var requests, responses, nxdomain;
    requests, responses, nxdomain, results := tracker.Snapshot();
    RecordAll(tracker, later);
  }

  lemma TraceGrows(now: seq<Observed>, before: seq<Observed>, later: seq<Observed>, k: nat)
    requires k < |later| && now == before + later[..k]
    ensures now + [later[k]] == before + later[..k + 1]
  {
  }
}
