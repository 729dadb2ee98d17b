/** What the observer's counters should say, as functions of the packets it has seen, and the
    conservation laws between them. */
module Counting {
  import opened GoStrings
  import opened WireName
  import opened DnsMessage

  /** One call of recordRequest or recordResponse. */
  datatype Observed = Observed(packet: seq<Byte>, tcpFramed: bool, response: bool)

  /** The messages that count: those that parse, and whose direction agrees with their QR bit. */
  function Messages(trace: seq<Observed>): seq<Message> {
    if trace == [] then []
    else Messages(trace[..|trace| - 1]) + Counted(trace[|trace| - 1])
  }

  function Counted(o: Observed): seq<Message> {
    match Parse(o.packet, o.tcpFramed)
    case Some(message) => if message.response == o.response then [message] else []
    case None => []
  }

  /** The string under which the tracker files a candidate. */
  datatype CandidateKey = CandidateKey(text: string)

  function KeyFor(p: NameAndType): CandidateKey {
    CandidateKey(Key(p.0, p.1))
  }

  function KeyOf(m: Message): CandidateKey {
    KeyFor((m.name, m.qtype))
  }

  /** Parsed messages are filed under the same key exactly if they agree in name and type. */
  lemma KeysTellCandidatesApart(p: Observed, q: Observed)
    requires Parse(p.packet, p.tcpFramed).Some? && Parse(q.packet, q.tcpFramed).Some?
    ensures var m, n := Parse(p.packet, p.tcpFramed).value, Parse(q.packet, q.tcpFramed).value;
            KeyOf(m) == KeyOf(n) <==> m.name == n.name && m.qtype == n.qtype
  {
    var m, n := Parse(p.packet, p.tcpFramed).value, Parse(q.packet, q.tcpFramed).value;
    ParsedTypeHasNoNul(p.packet, p.tcpFramed);
    ParsedTypeHasNoNul(q.packet, q.tcpFramed);
    if KeyOf(m) == KeyOf(n) {
      KeyIsInjective(m.name, m.qtype, n.name, n.qtype);
    }
  }

  /** Which messages a counter counts; an absent key or rcode does not restrict it. */
  datatype Filter = Filter(response: bool, key: Option<CandidateKey>, rcode: Option<string>)
  {
    predicate Matches(m: Message) {
      && m.response == response
      && (key.Some? ==> key.value == KeyOf(m))
      && (rcode.Some? ==> rcode.value == m.rcode)
    }
  }

  function Count(messages: seq<Message>, f: Filter): nat {
    if messages == [] then 0
    else Count(messages[..|messages| - 1], f) + if f.Matches(messages[|messages| - 1]) then 1 else 0
  }

  lemma CountNext(messages: seq<Message>, m: Message, f: Filter)
    ensures Count(messages + [m], f) == Count(messages, f) + if f.Matches(m) then 1 else 0
  {
    assert (messages + [m])[..|messages|] == messages;
  }

  lemma {:induction false} CountIsPositive(messages: seq<Message>, f: Filter)
    ensures Count(messages, f) > 0 <==> exists m :: m in messages && f.Matches(m)
  {
    if messages != [] {
      var front, last := messages[..|messages| - 1], messages[|messages| - 1];
      CountIsPositive(front, f);
      assert messages == front + [last];
    }
  }

  lemma {:induction false} CountIsBounded(messages: seq<Message>, f: Filter)
    ensures Count(messages, f) <= |messages|
  {
    if messages != [] {
      CountIsBounded(messages[..|messages| - 1], f);
    }
  }

  // ---------- unsigned 64-bit counters ----------

  const TWO_TO_THE_64: nat := 0x1_0000_0000_0000_0000

  type Counter = n: nat | n < TWO_TO_THE_64

  function Wrap(n: nat): Counter {
    n % TWO_TO_THE_64
  }

  lemma CountDoesNotWrap(messages: seq<Message>, f: Filter)
    requires |messages| < TWO_TO_THE_64
    ensures Wrap(Count(messages, f)) == Count(messages, f)
  {
    CountIsBounded(messages, f);
  }

  /** The ++ of a uint64. */
  function Increment(n: Counter): Counter {
    if n + 1 == TWO_TO_THE_64 then 0 else n + 1
  }

  // ---------- conservation ----------

  ghost predicate Distinct<T>(s: seq<T>) {
    forall i, j :: 0 <= i < j < |s| ==> s[i] != s[j]
  }

  function SumOverKeys(messages: seq<Message>, response: bool, rcode: Option<string>, keys: seq<CandidateKey>): nat {
    if keys == [] then 0
    else Count(messages, Filter(response, Some(keys[0]), rcode)) + SumOverKeys(messages, response, rcode, keys[1..])
  }

  function SumOverRCodes(messages: seq<Message>, key: CandidateKey, rcodes: seq<string>): nat {
    if rcodes == [] then 0
    else Count(messages, Filter(true, Some(key), Some(rcodes[0]))) + SumOverRCodes(messages, key, rcodes[1..])
  }

  /** A total is the sum over the candidates, as long as every message belongs to one of them. */
  lemma {:induction false} TotalIsSumOverKeys(messages: seq<Message>, response: bool, rcode: Option<string>, keys: seq<CandidateKey>)
    requires Distinct(keys)
    requires forall m :: m in messages ==> KeyOf(m) in keys
    ensures Count(messages, Filter(response, None, rcode)) == SumOverKeys(messages, response, rcode, keys)
    decreases |messages|
  {
    if messages == [] {
      NoMessagesNoSum(response, rcode, keys);
    } else {
      var front, last := messages[..|messages| - 1], messages[|messages| - 1];
      assert messages == front + [last];
      TotalIsSumOverKeys(front, response, rcode, keys);
      OneKeyGrows(front, last, response, rcode, keys);
    }
  }

  lemma {:induction false} NoMessagesNoSum(response: bool, rcode: Option<string>, keys: seq<CandidateKey>)
    ensures SumOverKeys([], response, rcode, keys) == 0
  {
    if keys != [] {
      NoMessagesNoSum(response, rcode, keys[1..]);
    }
  }

  lemma {:induction false} OneKeyGrows(front: seq<Message>, m: Message, response: bool, rcode: Option<string>, keys: seq<CandidateKey>)
    requires Distinct(keys)
    ensures SumOverKeys(front + [m], response, rcode, keys)
         == SumOverKeys(front, response, rcode, keys)
            + if KeyOf(m) in keys && Filter(response, None, rcode).Matches(m) then 1 else 0
    decreases |keys|
  {
    if keys != [] {
      CountNext(front, m, Filter(response, Some(keys[0]), rcode));
      OneKeyGrows(front, m, response, rcode, keys[1..]);
      assert keys[0] !in keys[1..];
      assert keys == [keys[0]] + keys[1..];
    }
  }

  /** A candidate's responses are the sum over its response codes. */
  lemma {:induction false} ResponsesAreSumOfRCodes(messages: seq<Message>, key: CandidateKey, rcodes: seq<string>)
    requires Distinct(rcodes)
    requires forall m :: m in messages && m.response && KeyOf(m) == key ==> m.rcode in rcodes
    ensures Count(messages, Filter(true, Some(key), None)) == SumOverRCodes(messages, key, rcodes)
    decreases |messages|
  {
    if messages == [] {
      NoMessagesNoRCodes(key, rcodes);
    } else {
      var front, last := messages[..|messages| - 1], messages[|messages| - 1];
      assert messages == front + [last];
      ResponsesAreSumOfRCodes(front, key, rcodes);
      OneRCodeGrows(front, last, key, rcodes);
    }
  }

  lemma {:induction false} NoMessagesNoRCodes(key: CandidateKey, rcodes: seq<string>)
    ensures SumOverRCodes([], key, rcodes) == 0
  {
    if rcodes != [] {
      NoMessagesNoRCodes(key, rcodes[1..]);
    }
  }

  lemma {:induction false} OneRCodeGrows(front: seq<Message>, m: Message, key: CandidateKey, rcodes: seq<string>)
    requires Distinct(rcodes)
    ensures SumOverRCodes(front + [m], key, rcodes)
         == SumOverRCodes(front, key, rcodes)
            + if m.rcode in rcodes && m.response && KeyOf(m) == key then 1 else 0
    decreases |rcodes|
  {
    if rcodes != [] {
      CountNext(front, m, Filter(true, Some(key), Some(rcodes[0])));
      OneRCodeGrows(front, m, key, rcodes[1..]);
      assert rcodes[0] !in rcodes[1..];
      assert rcodes == [rcodes[0]] + rcodes[1..];
    }
  }

  // ---------- the report ----------

  type NameAndType = (string, string)

  /** The comparator of the snapshot: by name, then by type. */
  function ComparePairs(a: NameAndType, b: NameAndType): int {
    if a.0 == b.0 then Compare(a.1, b.1) else Compare(a.0, b.0)
  }

  /** The name that comes first in byte order; of equal names, the type that does. */
  ghost predicate ComesFirst(a: NameAndType, b: NameAndType) {
    Precedes(a.0, b.0) || (a.0 == b.0 && Precedes(a.1, b.1))
  }

  /** It is this order, and a total one. */
  lemma PairOrder(a: NameAndType, b: NameAndType, c: NameAndType)
    ensures ComparePairs(a, b) < 0 <==> ComesFirst(a, b)
    ensures ComparePairs(a, b) == 0 <==> a == b
    ensures ComparePairs(a, b) < 0 <==> ComparePairs(b, a) > 0
    ensures ComparePairs(a, b) < 0 && ComparePairs(b, c) < 0 ==> ComparePairs(a, c) < 0
  {
    CompareIsByteOrder(a.0, b.0);
    CompareIsByteOrder(a.1, b.1);
    CompareEqual(a.0, b.0);
    CompareEqual(a.1, b.1);
    CompareEqual(b.0, c.0);
    CompareEqual(a.0, c.0);
    if Compare(a.0, b.0) < 0 && Compare(b.0, c.0) < 0 {
      CompareTransitive(a.0, b.0, c.0);
    }
    if Compare(a.1, b.1) < 0 && Compare(b.1, c.1) < 0 {
      CompareTransitive(a.1, b.1, c.1);
    }
  }

  ghost predicate StrictlySorted(s: seq<NameAndType>) {
    forall i, j :: 0 <= i < j < |s| ==> ComparePairs(s[i], s[j]) < 0
  }

  /** Elements in strictly increasing order are in the only such order. */
  lemma {:induction false} SortedListIsUnique(s: seq<NameAndType>, t: seq<NameAndType>)
    requires StrictlySorted(s) && StrictlySorted(t)
    requires forall p :: p in s <==> p in t
    ensures s == t
    decreases |s|
  {
    assert (s != [] ==> s[0] in s) && (t != [] ==> t[0] in t);
    if s != [] && t != [] {
      PairOrder(s[0], t[0], s[0]);
      assert s[0] == t[0];
      HeadComesOnce(s);
      HeadComesOnce(t);
      SortedListIsUnique(s[1..], t[1..]);
      assert s == [s[0]] + s[1..] && t == [t[0]] + t[1..];
    }
  }

  lemma HeadComesOnce(s: seq<NameAndType>)
    requires s != [] && StrictlySorted(s)
    ensures forall p :: p in s[1..] <==> p in s && p != s[0]
  {
    assert s == [s[0]] + s[1..];
    if i :| 1 <= i < |s| && s[i] == s[0] {
      PairOrder(s[0], s[i], s[0]);
    }
  }

  function PairOf(m: Message): NameAndType {
    var key := KeyOf(m).text;
    assert key[|m.name|] == '\0';
    SplitKey(key)
  }

  function Insert(p: NameAndType, s: seq<NameAndType>): seq<NameAndType> {
    if s == [] || ComparePairs(p, s[0]) < 0 then [p] + s
    else if p == s[0] then s
    else [s[0]] + Insert(p, s[1..])
  }

  /** The candidates of a trace, in the order of the report. */
  function Candidates(messages: seq<Message>): seq<NameAndType> {
    if messages == [] then []
    else Insert(PairOf(messages[|messages| - 1]), Candidates(messages[..|messages| - 1]))
  }

  lemma {:induction false} InsertKeepsOrder(p: NameAndType, s: seq<NameAndType>)
    requires StrictlySorted(s)
    ensures StrictlySorted(Insert(p, s))
    ensures forall q :: q in Insert(p, s) <==> q == p || q in s
  {
    if s == [] {
    } else if ComparePairs(p, s[0]) < 0 {
      forall i | 0 <= i < |s|
        ensures ComparePairs(p, s[i]) < 0
      {
        PairOrder(p, s[0], s[i]);
      }
    } else if p != s[0] {
      PairOrder(p, s[0], p);
      PairOrder(s[0], p, s[0]);
      InsertKeepsOrder(p, s[1..]);
      assert s == [s[0]] + s[1..];
      var rest := Insert(p, s[1..]);
      forall i | 0 <= i < |rest|
        ensures ComparePairs(s[0], rest[i]) < 0
      {
        assert rest[i] in rest;
        if rest[i] != p {
          var j :| 0 <= j < |s[1..]| && s[1..][j] == rest[i];
          assert s[j + 1] == rest[i];
        }
      }
    }
  }

  lemma {:induction false} CandidatesAreSorted(messages: seq<Message>)
    ensures StrictlySorted(Candidates(messages))
    ensures forall p :: p in Candidates(messages) <==> exists m :: m in messages && PairOf(m) == p
  {
    if messages != [] {
      var front, last := messages[..|messages| - 1], messages[|messages| - 1];
      CandidatesAreSorted(front);
      InsertKeepsOrder(PairOf(last), Candidates(front));
      assert messages == front + [last];
    }
  }

  /** One line of the report. */
  datatype Row = Row(name: string, qtype: string, requests: Counter, responses: Counter, rcodes: map<string, Counter>)

  function RCodeNames(messages: seq<Message>): set<string> {
    set m | m in messages :: m.rcode
  }

  function RCodes(messages: seq<Message>, key: CandidateKey): map<string, Counter> {
    map r | r in RCodeNames(messages) && Count(messages, Filter(true, Some(key), Some(r))) > 0
      :: Wrap(Count(messages, Filter(true, Some(key), Some(r))))
  }

  function Lookup(rcodes: map<string, Counter>, r: string): Option<Counter> {
    if r in rcodes then Some(rcodes[r]) else None
  }

  lemma RCodeIsCounted(messages: seq<Message>, key: CandidateKey, r: string)
    ensures Lookup(RCodes(messages, key), r)
         == var count := Count(messages, Filter(true, Some(key), Some(r)));
            if count > 0 then Some(Wrap(count)) else None
  {
    CountIsPositive(messages, Filter(true, Some(key), Some(r)));
  }

  /** The counters of one candidate. */
  datatype Stats = Stats(requests: Counter, responses: Counter, rcodes: map<string, Counter>)
  {
    function Requested(): Stats {
      this.(requests := Increment(requests))
    }

    function Responded(rcode: string): Stats {
      this.(responses := Increment(responses), rcodes := NextRCodes(rcodes, rcode))
    }
  }

  function StatsOf(messages: seq<Message>, key: CandidateKey): Stats {
    Stats(Wrap(Count(messages, Filter(false, Some(key), None))),
          Wrap(Count(messages, Filter(true, Some(key), None))), RCodes(messages, key))
  }

  function RowFor(messages: seq<Message>, p: NameAndType): Row {
    var stats := StatsOf(messages, KeyFor(p));
    Row(p.0, p.1, stats.requests, stats.responses, stats.rcodes)
  }

  function GetOrZero(rcodes: map<string, Counter>, rcode: string): Counter {
    if rcode in rcodes then rcodes[rcode] else 0
  }

  /** What one more message does to the counters of its own candidate. */
  function NextRCodes(rcodes: map<string, Counter>, rcode: string): map<string, Counter> {
    rcodes[rcode := Increment(GetOrZero(rcodes, rcode))]
  }

  function NextStats(stats: Stats, m: Message): Stats {
    if m.response then stats.Responded(m.rcode) else stats.Requested()
  }

  lemma StatsNext(messages: seq<Message>, m: Message, key: CandidateKey)
    ensures StatsOf(messages + [m], key)
         == if KeyOf(m) == key then NextStats(StatsOf(messages, key), m) else StatsOf(messages, key)
  {
    FieldsNext(messages, m, key);
    RCodesNext(messages, m, key);
  }

  lemma FieldsNext(messages: seq<Message>, m: Message, key: CandidateKey)
    ensures StatsOf(messages + [m], key).requests
         == if KeyOf(m) == key && !m.response then Increment(StatsOf(messages, key).requests)
            else StatsOf(messages, key).requests
    ensures StatsOf(messages + [m], key).responses
         == if KeyOf(m) == key && m.response then Increment(StatsOf(messages, key).responses)
            else StatsOf(messages, key).responses
  {
    CountNext(messages, m, Filter(false, Some(key), None));
    CountNext(messages, m, Filter(true, Some(key), None));
  }

  lemma RCodesNext(messages: seq<Message>, m: Message, key: CandidateKey)
    ensures RCodes(messages + [m], key)
         == if KeyOf(m) == key && m.response then NextRCodes(RCodes(messages, key), m.rcode) else RCodes(messages, key)
  {
    var rcodes, next := RCodes(messages, key), RCodes(messages + [m], key);
    var mine := KeyOf(m) == key && m.response;
    var want := if mine then NextRCodes(rcodes, m.rcode) else rcodes;
    forall r
      ensures Lookup(next, r) == Lookup(want, r)
    {
      var count := Count(messages, Filter(true, Some(key), Some(r)));
      RCodeIsCounted(messages, key, r);
      RCodeIsCounted(messages + [m], key, r);
      CountNext(messages, m, Filter(true, Some(key), Some(r)));
      NextLookup(rcodes, m.rcode, r, count);
    }
    SameLookups(next, want);
  }

  lemma NextLookup(rcodes: map<string, Counter>, rcode: string, r: string, count: nat)
    requires Lookup(rcodes, r) == if count > 0 then Some(Wrap(count)) else None
    ensures Lookup(NextRCodes(rcodes, rcode), r)
         == if r == rcode then Some(Wrap(count + 1)) else Lookup(rcodes, r)
  {
  }

  lemma SameLookups(a: map<string, Counter>, b: map<string, Counter>)
    requires forall r :: Lookup(a, r) == Lookup(b, r)
    ensures a == b
  {
    forall r
      ensures r in a <==> r in b
      ensures r in a ==> a[r] == b[r]
    {
      assert Lookup(a, r) == Lookup(b, r);
    }
  }

  /** The three totals of the tracker. */
  datatype Total = Requests | Responses | NXDomains
  {
    function Of(key: Option<CandidateKey>): Filter {
      match this
      case Requests => Filter(false, key, None)
      case Responses => Filter(true, key, None)
      case NXDomains => Filter(true, key, Some("NXDOMAIN"))
    }

    /** The counter of a line that belongs to this total. */
    function In(row: Row): Counter {
      match this
      case Requests => row.requests
      case Responses => row.responses
      case NXDomains => if "NXDOMAIN" in row.rcodes then row.rcodes["NXDOMAIN"] else 0
    }

    function Sum(rows: seq<Row>): nat {
      if rows == [] then 0 else In(rows[0]) + Sum(rows[1..])
    }

    function Value(messages: seq<Message>): Counter {
      Wrap(Count(messages, Of(None)))
    }

    lemma Next(messages: seq<Message>, m: Message)
      ensures Value(messages + [m])
           == if Of(None).Matches(m) then Increment(Value(messages)) else Value(messages)
    {
      CountNext(messages, m, Of(None));
    }
  }

  const NO_STATS := Stats(0, 0, map[])

  /** The counters of every candidate. */
  function Table(messages: seq<Message>): map<CandidateKey, Stats> {
    map key | key in KeySet(messages) :: StatsOf(messages, key)
  }

  function KeySet(messages: seq<Message>): set<CandidateKey> {
    set m | m in messages :: KeyOf(m)
  }

  function StatsIn(table: map<CandidateKey, Stats>, key: CandidateKey): Stats {
    if key in table then table[key] else NO_STATS
  }

  lemma NewCandidate(messages: seq<Message>, key: CandidateKey)
    requires key !in KeySet(messages)
    ensures StatsOf(messages, key) == NO_STATS
  {
    CountIsPositive(messages, Filter(false, Some(key), None));
    CountIsPositive(messages, Filter(true, Some(key), None));
    forall r
      ensures Lookup(RCodes(messages, key), r) == Lookup(map[], r)
    {
      CountIsPositive(messages, Filter(true, Some(key), Some(r)));
      RCodeIsCounted(messages, key, r);
    }
    SameLookups(RCodes(messages, key), map[]);
  }

  /** One more message changes the counters of its own candidate only. */
  lemma TableNext(messages: seq<Message>, m: Message)
    ensures Table(messages + [m])
         == Table(messages)[KeyOf(m) := NextStats(StatsIn(Table(messages), KeyOf(m)), m)]
  {
    assert KeySet(messages + [m]) == KeySet(messages) + {KeyOf(m)};
    if KeyOf(m) !in KeySet(messages) {
      NewCandidate(messages, KeyOf(m));
    }
    forall key | key in KeySet(messages) + {KeyOf(m)}
      ensures StatsOf(messages + [m], key)
           == if KeyOf(m) == key then NextStats(StatsOf(messages, key), m) else StatsOf(messages, key)
    {
      StatsNext(messages, m, key);
    }
  }

  /** The message a packet adds to the trace, if any. */
  lemma MessagesNext(trace: seq<Observed>, o: Observed)
    ensures Messages(trace + [o]) == Messages(trace) + Counted(o)
  {
    assert (trace + [o])[..|trace|] == trace;
  }

  function RowsFor(messages: seq<Message>, pairs: seq<NameAndType>): (rows: seq<Row>)
    ensures |rows| == |pairs|
    ensures forall i :: 0 <= i < |rows| ==> rows[i] == RowFor(messages, pairs[i])
  {
    seq(|pairs|, i requires 0 <= i < |pairs| => RowFor(messages, pairs[i]))
  }

  /** The report is a function of the trace alone. */
  function Report(messages: seq<Message>): seq<Row> {
    RowsFor(messages, Candidates(messages))
  }

  // ---------- the report in terms of the packets ----------

  /** A packet that a counter must count: it parses, its QR bit agrees with the side it was seen on,
      and it has this name and type, joined by a NUL, and this response code, where they are given. */
  ghost predicate Hit(o: Observed, response: bool, key: Option<string>, rcode: Option<string>) {
    match Parse(o.packet, o.tcpFramed)
    case None => false
    case Some(m) =>
      && o.response == response && m.response == response
      && (key.Some? ==> m.name + "\0" + m.qtype == key.value)
      && (rcode.Some? ==> m.rcode == rcode.value)
  }

  ghost function HitsIn(trace: seq<Observed>, response: bool, key: Option<string>, rcode: Option<string>): set<nat> {
    set i: nat | i < |trace| && Hit(trace[i], response, key, rcode)
  }

  ghost function Hits(trace: seq<Observed>, response: bool, key: Option<string>, rcode: Option<string>): nat {
    |HitsIn(trace, response, key, rcode)|
  }

  lemma {:induction false} HitsNext(trace: seq<Observed>, o: Observed, response: bool, key: Option<string>, rcode: Option<string>)
    ensures Hits(trace + [o], response, key, rcode)
         == Hits(trace, response, key, rcode) + if Hit(o, response, key, rcode) then 1 else 0
  {
    var before, after := HitsIn(trace, response, key, rcode), HitsIn(trace + [o], response, key, rcode);
    forall i: nat
      ensures i in after <==> i in before || (i == |trace| && Hit(o, response, key, rcode))
    {
      assert i < |trace| ==> (trace + [o])[i] == trace[i];
    }
    if Hit(o, response, key, rcode) {
      assert after == before + {|trace|};
    } else {
      assert after == before;
    }
  }

  function KeyFilter(response: bool, key: Option<string>, rcode: Option<string>): Filter {
    Filter(response, if key.Some? then Some(CandidateKey(key.value)) else None, rcode)
  }

  lemma {:induction false} CountIsHits(trace: seq<Observed>, response: bool, key: Option<string>, rcode: Option<string>)
    ensures Count(Messages(trace), KeyFilter(response, key, rcode)) == Hits(trace, response, key, rcode)
  {
    if trace == [] {
      assert HitsIn(trace, response, key, rcode) == {};
    } else {
      var front, last := trace[..|trace| - 1], trace[|trace| - 1];
      assert trace == front + [last];
      CountIsHits(front, response, key, rcode);
      HitsNext(front, last, response, key, rcode);
      CountOfOneMore(front, last, response, key, rcode);
    }
  }

  lemma {:induction false} CountOfOneMore(trace: seq<Observed>, o: Observed, response: bool, key: Option<string>, rcode: Option<string>)
    ensures Count(Messages(trace + [o]), KeyFilter(response, key, rcode))
         == Count(Messages(trace), KeyFilter(response, key, rcode)) + if Hit(o, response, key, rcode) then 1 else 0
  {
    MessagesNext(trace, o);
    if Counted(o) == [] {
      assert Messages(trace) + [] == Messages(trace);
    } else {
      var m := Parse(o.packet, o.tcpFramed).value;
      CountNext(Messages(trace), m, KeyFilter(response, key, rcode));
      MatchIsHit(o, m, response, key, rcode);
    }
  }

  lemma MatchIsHit(o: Observed, m: Message, response: bool, key: Option<string>, rcode: Option<string>)
    requires Parse(o.packet, o.tcpFramed) == Some(m) && m.response == o.response
    ensures KeyFilter(response, key, rcode).Matches(m) <==> Hit(o, response, key, rcode)
  {
    assert KeyOf(m).text == m.name + "\0" + m.qtype;
  }

  /** A line of the report counts the packets with its name and type, modulo 2^64; it has the
      response codes that occurred. */
  ghost predicate LineIsRight(trace: seq<Observed>, row: Row) {
    var key := Some(row.name + "\0" + row.qtype);
    && row.requests == Hits(trace, false, key, None) % TWO_TO_THE_64
    && row.responses == Hits(trace, true, key, None) % TWO_TO_THE_64
    && forall r :: CodeIsRight(row.rcodes, r, Hits(trace, true, key, Some(r)))
  }

  ghost predicate CodeIsRight(rcodes: map<string, Counter>, r: string, hits: nat) {
    if hits > 0 then r in rcodes && rcodes[r] == hits % TWO_TO_THE_64 else r !in rcodes
  }

  lemma {:induction false} RowIsRight(trace: seq<Observed>, p: NameAndType)
    ensures LineIsRight(trace, RowFor(Messages(trace), p))
  {
    var key, row := Some(p.0 + "\0" + p.1), RowFor(Messages(trace), p);
    assert KeyFilter(false, key, None) == Filter(false, Some(KeyFor(p)), None);
    CountIsHits(trace, false, key, None);
    CountIsHits(trace, true, key, None);
    forall r
      ensures CodeIsRight(row.rcodes, r, Hits(trace, true, key, Some(r)))
    {
      CountIsHits(trace, true, key, Some(r));
      RCodeIsCounted(Messages(trace), KeyFor(p), r);
      assert row.rcodes == RCodes(Messages(trace), KeyFor(p));
      assert Lookup(row.rcodes, r) == Lookup(RCodes(Messages(trace), KeyFor(p)), r);
    }
  }

  /** The lines are in order, all right, and each packet that counts has one. */
  ghost predicate IsReportOf(rows: seq<Row>, trace: seq<Observed>) {
    && InOrder(rows)
    && (forall i :: 0 <= i < |rows| ==> LineIsRight(trace, rows[i]))
    && forall o, m :: o in trace && Parse(o.packet, o.tcpFramed) == Some(m) && m.response == o.response ==> HasLine(rows, m)
  }

  ghost predicate InOrder(rows: seq<Row>) {
    forall i, j :: 0 <= i < j < |rows| ==> ComesFirst((rows[i].name, rows[i].qtype), (rows[j].name, rows[j].qtype))
  }

  ghost predicate HasLine(rows: seq<Row>, m: Message) {
    exists i :: 0 <= i < |rows| && rows[i].name + "\0" + rows[i].qtype == m.name + "\0" + m.qtype
  }

  lemma {:induction false} ReportIsRight(trace: seq<Observed>)
    ensures IsReportOf(Report(Messages(trace)), trace)
  {
    var rows := Report(Messages(trace));
    RowsComeInOrder(Messages(trace));
    forall i | 0 <= i < |rows|
      ensures LineIsRight(trace, rows[i])
    {
      RowIsRight(trace, Candidates(Messages(trace))[i]);
    }
    forall o, m | o in trace && Parse(o.packet, o.tcpFramed) == Some(m) && m.response == o.response
      ensures HasLine(rows, m)
    {
      CountedIsAMessage(trace, o, m);
      MessageHasALine(Messages(trace), m);
    }
  }

  lemma {:induction false} RowsComeInOrder(messages: seq<Message>)
    ensures InOrder(Report(messages))
  {
    var candidates, rows := Candidates(messages), Report(messages);
    CandidatesAreSorted(messages);
    forall i, j | 0 <= i < j < |rows|
      ensures ComesFirst((rows[i].name, rows[i].qtype), (rows[j].name, rows[j].qtype))
    {
      PairOrder(candidates[i], candidates[j], candidates[i]);
      assert rows[i] == RowFor(messages, candidates[i]) && rows[j] == RowFor(messages, candidates[j]);
    }
  }

  lemma {:induction false} MessageHasALine(messages: seq<Message>, m: Message)
    requires m in messages
    ensures HasLine(Report(messages), m)
  {
    var candidates, rows, p := Candidates(messages), Report(messages), PairOf(m);
    CandidatesAreSorted(messages);
    assert p in candidates;
    var i :| 0 <= i < |candidates| && candidates[i] == p;
    assert rows[i] == RowFor(messages, p);
    assert Key(p.0, p.1) == Key(m.name, m.qtype);
  }

  lemma {:induction false} CountedIsAMessage(trace: seq<Observed>, o: Observed, m: Message)
    requires o in trace && Parse(o.packet, o.tcpFramed) == Some(m) && m.response == o.response
    ensures m in Messages(trace)
  {
    var front, last := trace[..|trace| - 1], trace[|trace| - 1];
    assert trace == front + [last];
    if o in front {
      CountedIsAMessage(front, o, m);
    }
  }

  /** The totals count the packets of each side, and of these the NXDOMAIN responses. */
  lemma {:induction false} TotalsAreHits(trace: seq<Observed>)
    ensures Requests.Value(Messages(trace)) == Hits(trace, false, None, None) % TWO_TO_THE_64
    ensures Responses.Value(Messages(trace)) == Hits(trace, true, None, None) % TWO_TO_THE_64
    ensures NXDomains.Value(Messages(trace)) == Hits(trace, true, None, Some("NXDOMAIN")) % TWO_TO_THE_64
  {
    CountIsHits(trace, false, None, None);
    CountIsHits(trace, true, None, None);
    CountIsHits(trace, true, None, Some("NXDOMAIN"));
  }

  // ---------- the report adds up ----------

  function Keys(pairs: seq<NameAndType>): (keys: seq<CandidateKey>)
    ensures |keys| == |pairs|
    ensures forall i :: 0 <= i < |keys| ==> keys[i] == KeyFor(pairs[i])
  {
    seq(|pairs|, i requires 0 <= i < |pairs| => KeyFor(pairs[i]))
  }

  lemma CandidateKeys(messages: seq<Message>)
    ensures Distinct(Keys(Candidates(messages)))
    ensures forall m :: m in messages ==> KeyOf(m) in Keys(Candidates(messages))
  {
    var candidates, keys := Candidates(messages), Keys(Candidates(messages));
    CandidatesAreSorted(messages);
    forall i, j | 0 <= i < j < |keys|
      ensures keys[i] != keys[j]
    {
      assert candidates[i] in candidates && candidates[j] in candidates;
      PairOrder(candidates[i], candidates[j], candidates[i]);
    }
    forall m | m in messages
      ensures KeyOf(m) in keys
    {
      assert PairOf(m) in candidates;
      var i :| 0 <= i < |candidates| && candidates[i] == PairOf(m);
      assert keys[i] == KeyOf(m);
    }
  }

  lemma RowCounts(messages: seq<Message>, p: NameAndType, total: Total)
    ensures total.In(RowFor(messages, p)) == Wrap(Count(messages, total.Of(Some(KeyFor(p)))))
  {
    CountIsPositive(messages, total.Of(Some(KeyFor(p))));
  }

  /** The lines and the keys add up one pair at a time. */
  lemma FirstRow(messages: seq<Message>, pairs: seq<NameAndType>, total: Total)
    requires pairs != []
    ensures total.Sum(RowsFor(messages, pairs))
         == total.In(RowFor(messages, pairs[0])) + total.Sum(RowsFor(messages, pairs[1..]))
    ensures SumOverKeys(messages, total.Of(None).response, total.Of(None).rcode, Keys(pairs))
         == Count(messages, total.Of(Some(KeyFor(pairs[0]))))
            + SumOverKeys(messages, total.Of(None).response, total.Of(None).rcode, Keys(pairs[1..]))
  {
    assert RowsFor(messages, pairs)[1..] == RowsFor(messages, pairs[1..]);
    assert Keys(pairs)[1..] == Keys(pairs[1..]);
  }

  lemma {:induction false} RowsAddUp(messages: seq<Message>, pairs: seq<NameAndType>, total: Total)
    ensures Wrap(total.Sum(RowsFor(messages, pairs)))
         == Wrap(SumOverKeys(messages, total.Of(None).response, total.Of(None).rcode, Keys(pairs)))
  {
    if pairs != [] {
      var f := total.Of(None);
      RowsAddUp(messages, pairs[1..], total);
      FirstRow(messages, pairs, total);
      RowCounts(messages, pairs[0], total);
      WrapHeadAndTail(Count(messages, total.Of(Some(KeyFor(pairs[0])))), total.In(RowFor(messages, pairs[0])),
                      SumOverKeys(messages, f.response, f.rcode, Keys(pairs[1..])),
                      total.Sum(RowsFor(messages, pairs[1..])));
    }
  }

  lemma WrapHeadAndTail(count: nat, counter: nat, sum: nat, counterSum: nat)
    requires counter == Wrap(count) && Wrap(counterSum) == Wrap(sum)
    ensures Wrap(counter + counterSum) == Wrap(count + sum)
  {
  }

  lemma {:induction false} RowsAddUpExactly(messages: seq<Message>, pairs: seq<NameAndType>, total: Total)
    requires |messages| < TWO_TO_THE_64
    ensures total.Sum(RowsFor(messages, pairs))
         == SumOverKeys(messages, total.Of(None).response, total.Of(None).rcode, Keys(pairs))
  {
    if pairs != [] {
      RowsAddUpExactly(messages, pairs[1..], total);
      FirstRow(messages, pairs, total);
      RowCounts(messages, pairs[0], total);
      CountDoesNotWrap(messages, total.Of(Some(KeyFor(pairs[0]))));
    }
  }

  /** With fewer than 2^64 messages nothing wraps: each total is the sum over the lines. */
  lemma ReportAddsUpExactly(messages: seq<Message>, total: Total)
    requires |messages| < TWO_TO_THE_64
    ensures Count(messages, total.Of(None)) == total.Sum(Report(messages))
    ensures total.Value(messages) == Count(messages, total.Of(None))
  {
    var pairs, f := Candidates(messages), total.Of(None);
    CandidateKeys(messages);
    assert f == Filter(f.response, None, f.rcode);
    RowsAddUpExactly(messages, pairs, total);
    TotalIsSumOverKeys(messages, f.response, f.rcode, Keys(pairs));
    CountDoesNotWrap(messages, f);
  }

  /** Whatever was seen, each total is the sum over the lines of the report, as unsigned 64-bit
      numbers. */
  lemma ReportAddsUp(messages: seq<Message>, total: Total)
    ensures total.Value(messages) == Wrap(total.Sum(Report(messages)))
  {
    var pairs, f := Candidates(messages), total.Of(None);
    CandidateKeys(messages);
    RowsAddUp(messages, pairs, total);
    TotalIsSumOverKeys(messages, f.response, f.rcode, Keys(pairs));
  }

  function RCodeSum(rcodes: map<string, Counter>, names: seq<string>): nat
    requires forall r :: r in names ==> r in rcodes
  {
    if names == [] then 0 else rcodes[names[0]] + RCodeSum(rcodes, names[1..])
  }

  /** In every line the responses are the sum of the response codes, in whatever order they are listed. */
  lemma LineAddsUp(messages: seq<Message>, p: NameAndType, names: seq<string>)
    requires Distinct(names)
    requires forall r :: r in names <==> r in RowFor(messages, p).rcodes
    ensures Wrap(RCodeSum(RowFor(messages, p).rcodes, names)) == RowFor(messages, p).responses
  {
    var key := KeyFor(p);
    forall m | m in messages && m.response && KeyOf(m) == key
      ensures m.rcode in names
    {
      CountIsPositive(messages, Filter(true, Some(key), Some(m.rcode)));
    }
    ResponsesAreSumOfRCodes(messages, key, names);
    RCodesAddUp(messages, key, names);
  }

  lemma {:induction false} RCodesAddUp(messages: seq<Message>, key: CandidateKey, names: seq<string>)
    requires forall r :: r in names ==> r in RCodes(messages, key)
    ensures Wrap(RCodeSum(RCodes(messages, key), names)) == Wrap(SumOverRCodes(messages, key, names))
  {
    if names != [] {
      RCodesAddUp(messages, key, names[1..]);
      WrapHeadAndTail(Count(messages, Filter(true, Some(key), Some(names[0]))), RCodes(messages, key)[names[0]],
                      SumOverRCodes(messages, key, names[1..]), RCodeSum(RCodes(messages, key), names[1..]));
    }
  }
}
