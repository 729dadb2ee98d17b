/** The observer's view of a DNS message: header and question (sections 4.1.1 and 4.1.2 of
    RFC 1035), the length prefix used over TCP (section 4.2.2), and the labels of its counters. */
module DnsMessage {
  import opened GoStrings
  import opened WireName
  import opened PlainName

  type Uint16 = n: nat | n < 0x10000

  function BigEndian(bytes: seq<Byte>): Uint16
    requires |bytes| == 2
  {
    bytes[0] as int * 256 + bytes[1] as int
  }

  function Octets(n: Uint16): (bytes: seq<Byte>)
    ensures |bytes| == 2
    ensures BigEndian(bytes) == n
  {
    [(n / 256) as char, (n % 256) as char]
  }

  datatype Message = Message(name: string, qtype: string, response: bool, rcode: string)

  function TypeName(qtype: Uint16): string {
    match qtype
    case 1 => "A"
    case 28 => "AAAA"
    case _ => Decimal(qtype)
  }

  function RCodeName(rcode: Uint16): string {
    match rcode
    case 0 => "NOERROR"
    case 1 => "FORMERR"
    case 2 => "SERVFAIL"
    case 3 => "NXDOMAIN"
    case 5 => "REFUSED"
    case _ => Decimal(rcode)
  }

  function ParseUnframed(packet: seq<Byte>): Option<Message> {
    if |packet| < 12 || BigEndian(packet[4..6]) == 0 then None
    else
      match Decode(packet, 12)
      case None => None
      case Some(Name(name, offset)) =>
        if offset + 4 > |packet| then None
        else
          var flags := BigEndian(packet[2..4]);
          Some(Message(name, TypeName(BigEndian(packet[offset..offset + 2])), flags >= 0x8000, RCodeName(flags % 16)))
  }

  function Parse(packet: seq<Byte>, tcpFramed: bool): Option<Message> {
    if !tcpFramed then ParseUnframed(packet)
    else if |packet| < 2 then None
    else
      var messageLength := BigEndian(packet[..2]);
      if messageLength > |packet| - 2 then None else ParseUnframed(packet[2..2 + messageLength])
  }

  /** The flags are read with masks; the model reads them as numbers. */
  lemma FlagsAreNumbers(flags: bv16)
    ensures flags & 0x8000 != 0 <==> flags >= 0x8000
    ensures flags & 0x000F == flags % 16
  {
  }

  /** The two octets at a position, the first one being the more significant. */
  function Pair(packet: seq<Byte>, at: nat): nat
    requires at + 2 <= |packet|
  {
    256 * packet[at] as nat + packet[at + 1] as nat
  }

  lemma PairIsRead(packet: seq<Byte>, at: nat)
    requires at + 2 <= |packet|
    ensures BigEndian(packet[at..at + 2]) == Pair(packet, at)
  {
    var octets := packet[at..at + 2];
    assert octets[0] == packet[at] && octets[1] == packet[at + 1];
  }

  lemma FlagOctets(packet: seq<Byte>)
    requires |packet| >= 4
    ensures Pair(packet, 2) >= 0x8000 <==> packet[2] as nat >= 128
    ensures Pair(packet, 2) % 16 == packet[3] as nat % 16
  {
  }

  /** Which packets parse: the question count in octets 4 and 5 must not be zero, a name must stand
      behind the header and four octets behind the name. */
  lemma ParsesExactly(packet: seq<Byte>)
    ensures Parse(packet, false).Some? <==>
            && |packet| >= 12 && !(packet[4] == '\0' && packet[5] == '\0')
            && Decode(packet, 12).Some? && InPlaceEnd(packet, 12).value + 4 <= |packet|
  {
    if |packet| >= 12 {
      PairIsRead(packet, 4);
    }
  }

  /** And what becomes of its octets: the top bit of octet 2 is the QR bit, the low half of octet 3
      the response code, and the type stands right behind the bytes of the name. */
  lemma {:induction false} ParsedOctets(packet: seq<Byte>)
    requires Parse(packet, false).Some?
    ensures var m, next := Parse(packet, false).value, InPlaceEnd(packet, 12).value;
            && next + 4 <= |packet|
            && m.name == Decode(packet, 12).value.text
            && (m.response <==> packet[2] as nat >= 128)
            && m.rcode == RCodeName(packet[3] as nat % 16)
            && m.qtype == TypeName(Pair(packet, next))
            && (m.qtype == "A" <==> packet[next] == '\0' && packet[next + 1] == 1 as char)
            && (m.qtype == "AAAA" <==> packet[next] == '\0' && packet[next + 1] == 28 as char)
  {
    ParsedMessage(packet);
    KnownTypes(packet, InPlaceEnd(packet, 12).value);
  }

  lemma ParsedMessage(packet: seq<Byte>)
    requires Parse(packet, false).Some?
    ensures var m, name := Parse(packet, false).value, Decode(packet, 12);
            && name.Some? && name.value.next + 4 <= |packet|
            && m.name == name.value.text
            && m.qtype == TypeName(Pair(packet, name.value.next))
            && m.response == (packet[2] as nat >= 128)
            && m.rcode == RCodeName(packet[3] as nat % 16)
  {
    ParsesExactly(packet);
    PairIsRead(packet, 2);
    PairIsRead(packet, Decode(packet, 12).value.next);
    FlagOctets(packet);
  }

  lemma KnownTypes(packet: seq<Byte>, at: nat)
    requires at + 2 <= |packet|
    ensures TypeName(Pair(packet, at)) == "A" <==> packet[at] == '\0' && packet[at + 1] == 1 as char
    ensures TypeName(Pair(packet, at)) == "AAAA" <==> packet[at] == '\0' && packet[at + 1] == 28 as char
  {
    KnownNames(Pair(packet, at));
  }

  /** Over TCP the first two octets give the length of the message behind them. */
  lemma FramedOctets(packet: seq<Byte>)
    ensures Parse(packet, true)
         == if |packet| < 2 || 2 + 256 * packet[0] as nat + packet[1] as nat > |packet| then None
            else Parse(packet[2..2 + 256 * packet[0] as nat + packet[1] as nat], false)
  {
    if |packet| >= 2 {
      PairIsRead(packet, 0);
      assert packet[0..2] == packet[..2];
    }
  }

  // ---------- framing ----------

  /** Over TCP the length prefix delimits the message: what follows it in the buffer is ignored. */
  lemma FramingAgrees(message: seq<Byte>, trailer: seq<Byte>)
    requires |message| < 0x10000
    ensures Parse(Octets(|message|) + message + trailer, true) == Parse(message, false)
  {
    var packet := Octets(|message|) + message + trailer;
    assert packet[..2] == Octets(|message|);
    assert packet[2..2 + |message|] == message;
  }

  /** And nothing else parses over TCP: a parsed packet is such a prefix, message and trailer. */
  lemma FramedOnlyIfComplete(packet: seq<Byte>)
    requires Parse(packet, true).Some?
    ensures exists message, trailer :: |message| < 0x10000 && packet == Octets(|message|) + message + trailer
                                       && Parse(message, false) == Parse(packet, true)
  {
    var n := BigEndian(packet[..2]);
    var message, trailer := packet[2..2 + n], packet[2 + n..];
    assert packet == Octets(|message|) + message + trailer;
  }

  /** Bytes behind a message that parses do not change the result. */
  lemma ParseSurvivesAppend(packet: seq<Byte>, more: seq<Byte>)
    requires Parse(packet, false).Some?
    ensures Parse(packet + more, false) == Parse(packet, false)
  {
    DecodeSurvivesAppend(packet, more, 12);
    var offset := Decode(packet, 12).value.next;
    assert (packet + more)[2..4] == packet[2..4];
    assert (packet + more)[4..6] == packet[4..6];
    assert (packet + more)[offset..offset + 2] == packet[offset..offset + 2];
  }

  // ---------- round trip of a question ----------

  /** The header fields the observer reads, and the ones it skips. */
  datatype Header = Header(id: Uint16, response: bool, middle: nat, rcode: nat,
                           questions: Uint16, answers: Uint16, authorities: Uint16, additional: Uint16)
  {
    ghost predicate Valid() {
      middle < 0x800 && rcode < 16
    }

    function Flags(): Uint16
      requires Valid()
    {
      (if response then 0x8000 else 0) + middle * 16 + rcode
    }

    function Bytes(): (bytes: seq<Byte>)
      requires Valid()
      ensures |bytes| == 12
    {
      Octets(id) + Octets(Flags()) + Octets(questions) + Octets(answers) + Octets(authorities) + Octets(additional)
    }
  }

  lemma HeaderReadsBack(h: Header)
    requires h.Valid()
    ensures BigEndian(h.Bytes()[2..4]) == h.Flags() && BigEndian(h.Bytes()[4..6]) == h.questions
    ensures h.Flags() >= 0x8000 <==> h.response
    ensures h.Flags() % 16 == h.rcode
  {
    assert h.Bytes()[2..4] == Octets(h.Flags());
    assert h.Bytes()[4..6] == Octets(h.questions);
  }

  lemma QuestionReadsBack(header: seq<Byte>, labels: seq<Label>, qtype: Uint16, behind: seq<Byte>)
    requires |header| == 12 && LegalLabels(labels) && |behind| >= 2
    ensures Parse(header + Encode(labels) + (Octets(qtype) + behind), false)
         == if BigEndian(header[4..6]) > 0 && |labels| <= 127
            then var flags := BigEndian(header[2..4]);
                 Some(Message(Dotted(labels), TypeName(qtype), flags >= 0x8000, RCodeName(flags % 16)))
            else None
  {
    var wire := Encode(labels);
    var packet, offset := header + wire + (Octets(qtype) + behind), 12 + |wire|;
    Slices(header, wire, Octets(qtype), behind, packet);
    PlainNameDecodesUpTo127(header, labels, Octets(qtype) + behind);
    ParsedQuestion(packet, Dotted(labels), offset, qtype);
  }

  lemma Slices(header: seq<Byte>, wire: seq<Byte>, octets: seq<Byte>, behind: seq<Byte>, packet: seq<Byte>)
    requires |header| == 12 && |octets| == 2 && packet == header + wire + (octets + behind)
    ensures packet[2..4] == header[2..4] && packet[4..6] == header[4..6]
    ensures packet[12 + |wire|..12 + |wire| + 2] == octets
  {
  }

  lemma ParsedQuestion(packet: seq<Byte>, name: string, offset: nat, qtype: Uint16)
    requires |packet| >= 12 && offset + 4 <= |packet| && BigEndian(packet[offset..offset + 2]) == qtype
    ensures Decode(packet, 12) == Some(Name(name, offset)) && BigEndian(packet[4..6]) > 0 ==>
              var flags := BigEndian(packet[2..4]);
              Parse(packet, false) == Some(Message(name, TypeName(qtype), flags >= 0x8000, RCodeName(flags % 16)))
    ensures Decode(packet, 12) == None || BigEndian(packet[4..6]) == 0 ==> Parse(packet, false) == None
  {
  }

  /** A built message parses to what was put in exactly when it announces a question whose name
      the decoder's budget covers. */
  lemma MessageRoundTrip(h: Header, labels: seq<Label>, qtype: Uint16, qclass: Uint16, rest: seq<Byte>)
    requires h.Valid() && LegalLabels(labels)
    ensures Parse(h.Bytes() + Encode(labels) + (Octets(qtype) + (Octets(qclass) + rest)), false)
         == if h.questions > 0 && |labels| <= 127
            then Some(Message(Dotted(labels), TypeName(qtype), h.response, RCodeName(h.rcode)))
            else None
  {
    HeaderReadsBack(h);
    QuestionReadsBack(h.Bytes(), labels, qtype, Octets(qclass) + rest);
  }

  // ---------- labels and keys of the counters ----------

  lemma TypeNameIsInjective(a: Uint16, b: Uint16)
    requires TypeName(a) == TypeName(b)
    ensures a == b
  {
    assert Decimal(a)[0] <= '9' && Decimal(b)[0] <= '9';
    if a !in {1, 28} && b !in {1, 28} {
      DecimalInjective(a, b);
    }
  }

  lemma RCodeNameIsInjective(a: Uint16, b: Uint16)
    requires RCodeName(a) == RCodeName(b)
    ensures a == b
  {
    assert Decimal(a)[0] <= '9' && Decimal(b)[0] <= '9';
    if a !in {0, 1, 2, 3, 5} && b !in {0, 1, 2, 3, 5} {
      DecimalInjective(a, b);
    }
  }

  /** The names of types and response codes belong to the numbers of sections 3.2.2 and 4.1.1 of
      RFC 1035 (and to 28, the IPv6 address type) and to no other. */
  lemma KnownNames(n: Uint16)
    ensures (TypeName(n) == "A" <==> n == 1) && (TypeName(n) == "AAAA" <==> n == 28)
    ensures (RCodeName(n) == "NOERROR" <==> n == 0) && (RCodeName(n) == "FORMERR" <==> n == 1)
    ensures (RCodeName(n) == "SERVFAIL" <==> n == 2) && (RCodeName(n) == "NXDOMAIN" <==> n == 3)
    ensures RCodeName(n) == "REFUSED" <==> n == 5
  {
    assert TypeName(n)[0] == 'A' ==> n == 1 || n == 28;
    assert RCodeName(n)[0] > '9' ==> n <= 5;
  }

  /** All other types and response codes are their numbers in decimal, without leading zeros. */
  lemma OtherNamesAreNumbers(n: Uint16)
    ensures n !in {1, 28} ==> IsDecimal(TypeName(n), n)
    ensures n !in {0, 1, 2, 3, 5} ==> IsDecimal(RCodeName(n), n)
  {
    DecimalReadsBack(n);
  }

  ghost predicate IsDecimal(s: string, n: nat) {
    && (forall i :: 0 <= i < |s| ==> '0' <= s[i] <= '9')
    && NumberOf(s) == n
    && s != "" && (s[0] == '0' ==> s == "0")
  }

  lemma ParsedTypeHasNoNul(packet: seq<Byte>, tcpFramed: bool)
    requires Parse(packet, tcpFramed).Some?
    ensures '\0' !in Parse(packet, tcpFramed).value.qtype
  {
  }

  /** The key under which a message is counted. */
  function Key(name: string, qtype: string): string {
    name + "\0" + qtype
  }

  lemma OnlyTheLastNul(name: string, qtype: string, i: nat)
    requires '\0' !in qtype && i < |Key(name, qtype)|
    ensures i > |name| ==> Key(name, qtype)[i] != '\0'
  {
    assert i > |name| ==> Key(name, qtype)[i] == qtype[i - |name| - 1];
  }

  /** Different (name, type) pairs have different keys, even when names contain NUL bytes. */
  lemma KeyIsInjective(name: string, qtype: string, name': string, qtype': string)
    requires Key(name, qtype) == Key(name', qtype')
    requires '\0' !in qtype && '\0' !in qtype'
    ensures name == name' && qtype == qtype'
  {
    var n, n', key := |name|, |name'|, Key(name, qtype);
    OnlyTheLastNul(name, qtype, n');
    OnlyTheLastNul(name', qtype', n);
    assert name == key[..n] && name' == key[..n'];
    assert qtype == key[n + 1..] && qtype' == key[n' + 1..];
  }

  /** strings.SplitN(key, "\x00", 2) */
  function SplitKey(key: string): (parts: (string, string))
    requires '\0' in key
    ensures Key(parts.0, parts.1) == key
    ensures '\0' !in parts.0
  {
    var i := IndexOf(key, '\0');
    JoinedAround(key, i);
    (key[..i], key[i + 1..])
  }

  lemma JoinedAround(key: string, i: nat)
    requires i < |key| && key[i] == '\0'
    ensures Key(key[..i], key[i + 1..]) == key
  {
  }

  /** Splitting recovers the pair exactly for names without a NUL byte. */
  lemma SplitRecoversNulFreeNames(name: string, qtype: string)
    ensures SplitKey(Key(name, qtype)) == (name, qtype) <==> '\0' !in name
  {
    var key := Key(name, qtype);
    assert key[..|name|] == name && key[|name| + 1..] == qtype;
    if '\0' !in name {
      IndexOfIs(key, '\0', |name|);
    }
  }

  /** The decoder does produce such a name: a one-octet label may hold any octet. */
  lemma NamesMayContainNul()
    ensures Decode(['\U{1}', '\0', '\0'], 0) == Some(Name("\0.", 3))
    ensures SplitKey(Key("\0.", "A")) == ("", ".\0A")
  {
    var labels: seq<Label> := [['\0']];
    assert Encode(labels[1..]) == TERMINATOR;
    assert Encode(labels) == ['\U{1}', '\0', '\0'];
    PlainNameDecodesUpTo127([], labels, []);
    assert [] + Encode(labels) + [] == Encode(labels);
    assert Dotted(labels) == "\0.";
    assert Decode(Encode(labels), 0) == Some(Name("\0.", 3));
    var key := Key("\0.", "A");
    assert key[0] == '\0' && key[1..] == ".\0A";
    assert SplitKey(key).0 == key[..0] == "";
  }
}
