/** Message compression (section 4.1.4 of RFC 1035): a writer that shares suffixes between names,
    and the decoder as its inverse. */
module NameCompression {
  import opened GoStrings
  import opened WireName
  import opened PlainName

  /** Pointers hold 14 bits. */
  type Target = t: nat | t < 0x4000

  function PointerTo(target: Target): seq<Byte> {
    [(192 + target / 256) as char, (target % 256) as char]
  }

  /** Where a suffix was written, and how many pointers are followed when it is read from there. */
  datatype Suffix = Suffix(target: Target, pointers: nat)

  /** A message under construction, and what is known of each suffix written so far. */
  datatype Writer = Writer(packet: seq<Byte>, suffixes: map<seq<Label>, Suffix>)

  function WriteName(w: Writer, labels: seq<Label>): Writer
    requires LegalLabels(labels)
    decreases |labels|
  {
    if labels == [] then w.(packet := w.packet + TERMINATOR)
    else if labels in w.suffixes then w.(packet := w.packet + PointerTo(w.suffixes[labels].target))
    else
      var here := |w.packet|;
      var rest := WriteName(w.(packet := w.packet + ([LengthOctet(labels[0])] + labels[0])), labels[1..]);
      if here < 0x4000 then rest.(suffixes := rest.suffixes[labels := Suffix(here, Pointers(w, labels))]) else rest
  }

  /** How many pointers are followed when this name is read back from where it is written next. */
  function Pointers(w: Writer, labels: seq<Label>): nat
    decreases |labels|
  {
    if labels == [] then 0
    else if labels in w.suffixes then 1 + w.suffixes[labels].pointers
    else Pointers(w, labels[1..])
  }

  /** What a message consists of: names, and bytes that are not names (counts, types, data). */
  datatype Item = DomainName(labels: seq<Label>) | Other(bytes: seq<Byte>)

  ghost predicate LegalItems(items: seq<Item>) {
    forall i :: 0 <= i < |items| && items[i].DomainName? ==> LegalLabels(items[i].labels)
  }

  function WriteItem(w: Writer, item: Item): Writer
    requires item.DomainName? ==> LegalLabels(item.labels)
  {
    match item
    case DomainName(labels) => WriteName(w, labels)
    case Other(bytes) => w.(packet := w.packet + bytes)
  }

  function Write(header: seq<Byte>, items: seq<Item>): Writer
    requires LegalItems(items)
  {
    if items == [] then Writer(header, map[])
    else WriteItem(Write(header, items[..|items| - 1]), items[|items| - 1])
  }

  // ---------- what it costs to read a name ----------

  /** The walk from `offset` yields `labels` with this budget and with no smaller one. */
  ghost predicate Costs(packet: seq<Byte>, offset: nat, labels: seq<Label>, cost: nat) {
    forall budget: nat :: Walk(packet, offset, budget) == if budget < cost then None else Some(labels)
  }

  lemma CostSurvivesAppend(packet: seq<Byte>, more: seq<Byte>, offset: nat, labels: seq<Label>, cost: nat)
    requires Costs(packet, offset, labels, cost)
    ensures Costs(packet + more, offset, labels, cost)
  {
    forall budget: nat
      ensures Walk(packet + more, offset, budget) == Walk(packet, offset, budget)
    {
      WalkSurvivesAppend(packet, more, offset, budget, budget + cost);
    }
  }

  lemma CostOfLabel(packet: seq<Byte>, offset: nat, bytes: Label, rest: seq<Label>, cost: nat)
    requires NodeAt(packet, offset) == Text(bytes, offset + 1 + |bytes|)
    requires Costs(packet, offset + 1 + |bytes|, rest, cost)
    ensures Costs(packet, offset, [bytes] + rest, cost + 1)
  {
    forall budget: nat
      ensures Walk(packet, offset, budget) == if budget < cost + 1 then None else Some([bytes] + rest)
    {
      if budget > 0 {
        var further := Walk(packet, offset + 1 + |bytes|, budget - 1);
        assert Walk(packet, offset, budget) == Before(bytes, further);
      }
    }
  }

  lemma CostOfPointer(packet: seq<Byte>, offset: nat, target: nat, labels: seq<Label>, cost: nat)
    requires NodeAt(packet, offset) == Pointer(target) && Costs(packet, target, labels, cost)
    ensures Costs(packet, offset, labels, cost + 1)
  {
    forall budget: nat
      ensures Walk(packet, offset, budget) == if budget < cost + 1 then None else Some(labels)
    {
      if budget > 0 {
        assert Walk(packet, offset, budget) == Walk(packet, target, budget - 1);
      }
    }
  }

  /** Every recorded suffix starts with a label and is read back from there at the cost of a
      position for each label, each pointer and the terminator; at most one pointer stands before
      each further label. */
  ghost predicate Valid(w: Writer) {
    forall s <- w.suffixes :: Recorded(w.packet, s, w.suffixes[s])
  }

  ghost predicate Recorded(packet: seq<Byte>, s: seq<Label>, at: Suffix) {
    at.pointers < |s| && Costs(packet, at.target, s, |s| + at.pointers + 1)
  }

  lemma ValidAfterAppend(w: Writer, more: seq<Byte>)
    requires Valid(w)
    ensures Valid(w.(packet := w.packet + more))
  {
    forall s <- w.suffixes
      ensures Recorded(w.packet + more, s, w.suffixes[s])
    {
      CostSurvivesAppend(w.packet, more, w.suffixes[s].target, s, |s| + w.suffixes[s].pointers + 1);
    }
  }

  lemma {:induction false} PointersAreFew(w: Writer, labels: seq<Label>)
    requires Valid(w)
    ensures Pointers(w, labels) <= |labels|
    decreases |labels|
  {
    if labels != [] && labels !in w.suffixes {
      PointersAreFew(w, labels[1..]);
    }
  }

  lemma PointerReadsBack(before: seq<Byte>, target: Target)
    ensures NodeAt(before + PointerTo(target), |before|) == Pointer(target)
  {
  }

  lemma LabelReadsBack(before: seq<Byte>, bytes: Label, packet: seq<Byte>)
    requires LegalLabel(bytes) && before + ([LengthOctet(bytes)] + bytes) <= packet
    ensures NodeAt(packet, |before|) == Text(bytes, |before| + 1 + |bytes|)
  {
    var written := before + ([LengthOctet(bytes)] + bytes);
    assert packet[|before|] == written[|before|];
    assert packet[|before| + 1..|before| + 1 + |bytes|] == written[|before| + 1..] == bytes;
  }

  /** What the writer adds for a name is read back as this name, at the cost of its labels, the
      pointers followed and the terminator; and it ends where the writer stands then. */
  lemma {:induction false} WriteNameReadsBack(w: Writer, labels: seq<Label>)
    requires LegalLabels(labels) && Valid(w)
    ensures w.packet <= WriteName(w, labels).packet
    ensures Valid(WriteName(w, labels))
    ensures Costs(WriteName(w, labels).packet, |w.packet|, labels, |labels| + Pointers(w, labels) + 1)
    ensures InPlaceEnd(WriteName(w, labels).packet, |w.packet|) == Some(|WriteName(w, labels).packet|)
    decreases |labels|, 1
  {
    if labels == [] {
      ValidAfterAppend(w, TERMINATOR);
      var packet := w.packet + TERMINATOR;
      assert NodeAt(packet, |w.packet|) == End && WriteName(w, labels).packet == packet;
    } else if labels in w.suffixes {
      var target := w.suffixes[labels].target;
      ValidAfterAppend(w, PointerTo(target));
      PointerReadsBack(w.packet, target);
      CostOfPointer(w.packet + PointerTo(target), |w.packet|, target, labels, |labels| + Pointers(w, labels));
    } else {
      WriteLabelReadsBack(w, labels);
    }
  }

  lemma {:induction false} WriteLabelReadsBack(w: Writer, labels: seq<Label>)
    requires LegalLabels(labels) && Valid(w) && labels != [] && labels !in w.suffixes
    ensures w.packet <= WriteName(w, labels).packet
    ensures Valid(WriteName(w, labels))
    ensures Costs(WriteName(w, labels).packet, |w.packet|, labels, |labels| + Pointers(w, labels) + 1)
    ensures InPlaceEnd(WriteName(w, labels).packet, |w.packet|) == Some(|WriteName(w, labels).packet|)
    decreases |labels|, 0
  {
    var head := [LengthOctet(labels[0])] + labels[0];
    ValidAfterAppend(w, head);
    var next := w.(packet := w.packet + head);
    var rest := WriteName(next, labels[1..]);
    WriteNameReadsBack(next, labels[1..]);
    PointersAreFew(w, labels[1..]);
    SamePointers(w, next, labels[1..]);
    assert WriteName(w, labels).packet == rest.packet;
    LabelReadsBack(w.packet, labels[0], rest.packet);
    CostOfLabel(rest.packet, |w.packet|, labels[0], labels[1..], |labels| + Pointers(w, labels));
    assert [labels[0]] + labels[1..] == labels;
    if |w.packet| < 0x4000 {
      RecordOneMore(rest, labels, Suffix(|w.packet|, Pointers(w, labels)));
    }
  }

  lemma RecordOneMore(w: Writer, s: seq<Label>, at: Suffix)
    requires Valid(w) && Recorded(w.packet, s, at)
    ensures Valid(w.(suffixes := w.suffixes[s := at]))
  {
  }

  lemma {:induction false} SamePointers(w: Writer, v: Writer, labels: seq<Label>)
    requires w.suffixes == v.suffixes
    ensures Pointers(w, labels) == Pointers(v, labels)
    decreases |labels|
  {
    if labels != [] && labels !in w.suffixes {
      SamePointers(w, v, labels[1..]);
    }
  }

  lemma {:induction false} WriteIsValid(header: seq<Byte>, items: seq<Item>)
    requires LegalItems(items)
    ensures Valid(Write(header, items))
  {
    if items != [] {
      var w, last := Write(header, items[..|items| - 1]), items[|items| - 1];
      WriteIsValid(header, items[..|items| - 1]);
      match last {
        case DomainName(labels) => WriteNameReadsBack(w, labels);
        case Other(bytes) => ValidAfterAppend(w, bytes);
      }
    }
  }

  lemma {:induction false} WriteOnlyAppends(header: seq<Byte>, items: seq<Item>, n: nat)
    requires LegalItems(items) && n <= |items|
    ensures Write(header, items[..n]).packet <= Write(header, items).packet
    decreases |items|
  {
    if n == |items| {
      assert items[..n] == items;
    } else {
      var front := items[..|items| - 1];
      assert front[..n] == items[..n];
      WriteOnlyAppends(header, front, n);
      WriteIsValid(header, front);
      if items[|items| - 1].DomainName? {
        WriteNameReadsBack(Write(header, front), items[|items| - 1].labels);
      }
    }
  }

  /** Where the n-th item starts in the message. */
  function Offset(header: seq<Byte>, items: seq<Item>, n: nat): nat
    requires LegalItems(items) && n <= |items|
  {
    |Write(header, items[..n]).packet|
  }

  /** Every name that the writer put into a message decodes to itself, from wherever it was written,
      and the decoder goes on right behind the bytes written for it, exactly if its labels, the
      pointers on its way and the terminator are at most 128. */
  lemma NameDecodesExactlyWithin(header: seq<Byte>, items: seq<Item>, n: nat)
    requires LegalItems(items) && n < |items| && items[n].DomainName?
    ensures var labels := items[n].labels;
            Decode(Write(header, items).packet, Offset(header, items, n))
            == if |labels| + Pointers(Write(header, items[..n]), labels) + 1 <= MAX_STEPS
               then Some(Name(Dotted(labels), Offset(header, items, n + 1))) else None
  {
    var w, labels := Write(header, items[..n]), items[n].labels;
    assert items[..n + 1][..n] == items[..n];
    var done := Write(header, items[..n + 1]);
    assert done == WriteName(w, labels);
    WriteIsValid(header, items[..n]);
    WriteNameReadsBack(w, labels);
    WriteOnlyAppends(header, items, n + 1);
    var packet := Write(header, items).packet;
    var more := packet[|done.packet|..];
    assert packet == done.packet + more;
    CostSurvivesAppend(done.packet, more, |w.packet|, labels, |labels| + Pointers(w, labels) + 1);
    DecodeWithCost(done.packet, more, |w.packet|, labels, |labels| + Pointers(w, labels) + 1);
  }

  lemma DecodeWithCost(packet: seq<Byte>, more: seq<Byte>, offset: nat, labels: seq<Label>, cost: nat)
    requires Costs(packet, offset, labels, cost) && Costs(packet + more, offset, labels, cost)
    requires InPlaceEnd(packet, offset) == Some(|packet|)
    ensures Decode(packet + more, offset)
         == if cost <= MAX_STEPS then Some(Name(Dotted(labels), |packet|)) else None
  {
    assert Walk(packet, offset, MAX_STEPS) == if MAX_STEPS < cost then None else Some(labels);
    assert Walk(packet + more, offset, MAX_STEPS) == if MAX_STEPS < cost then None else Some(labels);
    if cost <= MAX_STEPS {
      DecodeSurvivesAppend(packet, more, offset);
    }
  }

  /** Since there is at most one pointer a label, names of at most 63 labels always do. */
  lemma CompressionRoundTrip(header: seq<Byte>, items: seq<Item>, n: nat)
    requires LegalItems(items) && n < |items|
    requires items[n].DomainName? && |items[n].labels| <= 63
    ensures Decode(Write(header, items).packet, Offset(header, items, n))
         == Some(Name(Dotted(items[n].labels), Offset(header, items, n + 1)))
  {
    WriteIsValid(header, items[..n]);
    PointersAreFew(Write(header, items[..n]), items[n].labels);
    NameDecodesExactlyWithin(header, items, n);
  }

  // ---------- 63 is the bound ----------

  const STEP: Label := ['x']

  function Steps(n: nat): (labels: seq<Label>)
    ensures |labels| == n
    ensures LegalLabels(labels)
  {
    if n == 0 then [] else [STEP] + Steps(n - 1)
  }

  /** Names of 1, 2, ..., n equal labels: each is one label before a pointer to the one before. */
  function Staircase(n: nat): (items: seq<Item>)
    ensures |items| == n
    ensures LegalItems(items)
  {
    if n == 0 then [] else Staircase(n - 1) + [DomainName(Steps(n))]
  }

  ghost predicate StaircaseWritten(w: Writer, header: seq<Byte>, n: nat) {
    && |w.packet| <= |header| + 4 * n
    && (forall k: nat :: Steps(k) in w.suffixes <==> 1 <= k <= n)
    && forall k: nat :: 1 <= k <= n ==> w.suffixes[Steps(k)].pointers == k - 1
  }

  lemma StepPointers(w: Writer, header: seq<Byte>, n: nat)
    requires StaircaseWritten(w, header, n)
    ensures Pointers(w, Steps(n)) == n && Pointers(w, Steps(n + 1)) == n
  {
    assert Steps(n + 1)[1..] == Steps(n);
    assert n > 0 ==> Steps(n) in w.suffixes;
    assert Steps(n + 1) !in w.suffixes;
  }

  lemma StepsAreDistinct(j: nat, k: nat)
    ensures Steps(j) == Steps(k) <==> j == k
  {
    assert |Steps(j)| == j && |Steps(k)| == k;
  }

  lemma WriteStep(w: Writer, header: seq<Byte>, n: nat)
    requires StaircaseWritten(w, header, n) && |header| + 4 * n < 0x4000
    ensures StaircaseWritten(WriteName(w, Steps(n + 1)), header, n + 1)
  {
    var w' := WriteName(w, Steps(n + 1));
    StepPointers(w, header, n);
    var next := w.(packet := w.packet + ([LengthOctet(STEP)] + STEP));
    assert Steps(n + 1)[0] == STEP && Steps(n + 1)[1..] == Steps(n);
    assert n > 0 ==> Steps(n) in w.suffixes;
    assert WriteName(next, Steps(n)).suffixes == w.suffixes;
    assert w'.suffixes == w.suffixes[Steps(n + 1) := Suffix(|w.packet|, n)];
    forall k: nat
      ensures Steps(k) == Steps(n + 1) <==> k == n + 1
    {
      StepsAreDistinct(k, n + 1);
    }
  }

  lemma {:induction false} StaircaseIsWritten(header: seq<Byte>, n: nat)
    requires |header| + 4 * n < 0x4000
    ensures StaircaseWritten(Write(header, Staircase(n)), header, n)
  {
    if n > 0 {
      StaircaseIsWritten(header, n - 1);
      assert Staircase(n)[..n - 1] == Staircase(n - 1);
      WriteStep(Write(header, Staircase(n - 1)), header, n - 1);
    }
  }

  /** A staircase with its last name written once more. */
  function StaircaseAgain(n: nat): (items: seq<Item>)
    ensures |items| == n + 1 && LegalItems(items) && items[..n] == Staircase(n)
  {
    Staircase(n) + [DomainName(Steps(n))]
  }

  /** The bound of 63 is sharp: the last name of a staircase decodes exactly up to 64 labels where it
      was written first, and up to 63 where it was written again. Names of 65 to 127 labels are
      legal, so not every legal message decodes. */
  lemma SixtyThreeIsTheBound(header: seq<Byte>, n: nat)
    requires n > 0 && |header| + 4 * n < 0x4000
    ensures var packet := Write(header, StaircaseAgain(n)).packet;
            && (Decode(packet, Offset(header, StaircaseAgain(n), n - 1)).Some? <==> n <= 64)
            && (Decode(packet, Offset(header, StaircaseAgain(n), n)).Some? <==> n <= 63)
  {
    FirstTime(header, n);
    SecondTime(header, n);
  }

  lemma {:induction false} FirstTime(header: seq<Byte>, n: nat)
    requires n > 0 && |header| + 4 * n < 0x4000
    ensures var items := StaircaseAgain(n);
            Decode(Write(header, items).packet, Offset(header, items, n - 1)).Some? <==> 2 * n <= MAX_STEPS
  {
    LastOfStaircase(n);
    StaircaseIsWritten(header, n - 1);
    StepPointers(Write(header, Staircase(n - 1)), header, n - 1);
    NameDecodesExactlyWithin(header, StaircaseAgain(n), n - 1);
  }

  lemma {:induction false} LastOfStaircase(n: nat)
    requires n > 0
    ensures StaircaseAgain(n)[..n - 1] == Staircase(n - 1)
    ensures StaircaseAgain(n)[n - 1] == DomainName(Steps(n))
  {
    var before, items := Staircase(n - 1), StaircaseAgain(n);
    assert items[..n - 1] == Staircase(n)[..n - 1];
    assert Staircase(n)[..n - 1] == before;
  }

  lemma SecondTime(header: seq<Byte>, n: nat)
    requires |header| + 4 * n < 0x4000
    ensures var items := StaircaseAgain(n);
            Decode(Write(header, items).packet, Offset(header, items, n)).Some? <==> 2 * n + 1 <= MAX_STEPS
  {
    StaircaseIsWritten(header, n);
    StepPointers(Write(header, Staircase(n)), header, n);
    NameDecodesExactlyWithin(header, StaircaseAgain(n), n);
  }
}
