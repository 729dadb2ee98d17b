/** Names written without compression (section 3.1 of RFC 1035): which of them the decoder's
    budget covers, and when the dotted text identifies the name. */
module PlainName {
  import opened GoStrings
  import opened WireName

  ghost predicate LegalLabel(bytes: Label) {
    1 <= |bytes| <= 63
  }

  ghost predicate LegalLabels(labels: seq<Label>) {
    forall i :: 0 <= i < |labels| ==> LegalLabel(labels[i])
  }

  function LengthOctet(bytes: Label): (b: Byte)
    requires LegalLabel(bytes)
    ensures b as int == |bytes|
  {
    |bytes| as char
  }

  const TERMINATOR: seq<Byte> := ['\0']

  /** Every label behind its length, then the zero octet. */
  function Encode(labels: seq<Label>): seq<Byte>
    requires LegalLabels(labels)
  {
    if labels == [] then TERMINATOR
    else [LengthOctet(labels[0])] + labels[0] + Encode(labels[1..])
  }

  ghost predicate WrittenAt(packet: seq<Byte>, offset: nat, bytes: seq<Byte>) {
    offset + |bytes| <= |packet| && packet[offset..offset + |bytes|] == bytes
  }

  lemma LabelWrittenAt(packet: seq<Byte>, offset: nat, bytes: Label, rest: seq<Byte>)
    requires LegalLabel(bytes)
    requires WrittenAt(packet, offset, [LengthOctet(bytes)] + bytes + rest)
    ensures NodeAt(packet, offset) == Text(bytes, offset + 1 + |bytes|)
    ensures WrittenAt(packet, offset + 1 + |bytes|, rest)
  {
    var all := [LengthOctet(bytes)] + bytes + rest;
    var here := packet[offset..offset + |all|];
    assert here[1..1 + |bytes|] == bytes;
    assert here[1 + |bytes|..] == rest;
    assert packet[offset] == here[0] == LengthOctet(bytes);
    assert packet[offset + 1..offset + 1 + |bytes|] == here[1..1 + |bytes|];
    assert packet[offset + 1 + |bytes|..offset + |all|] == here[1 + |bytes|..];
  }

  lemma FirstLabelWrittenAt(packet: seq<Byte>, offset: nat, labels: seq<Label>)
    requires labels != [] && LegalLabels(labels) && WrittenAt(packet, offset, Encode(labels))
    ensures NodeAt(packet, offset) == Text(labels[0], offset + 1 + |labels[0]|)
    ensures WrittenAt(packet, offset + 1 + |labels[0]|, Encode(labels[1..]))
    ensures |Encode(labels)| == 1 + |labels[0]| + |Encode(labels[1..])|
  {
    LabelWrittenAt(packet, offset, labels[0], Encode(labels[1..]));
  }

  /** What a walk yields that passes these labels and then the terminator. */
  function Walked(labels: seq<Label>, budget: nat): Option<seq<Label>> {
    if |labels| < budget then Some(labels) else None
  }

  lemma OneLabelMore(packet: seq<Byte>, offset: nat, labels: seq<Label>, budget: nat)
    requires labels != [] && NodeAt(packet, offset) == Text(labels[0], offset + 1 + |labels[0]|)
    requires budget > 0 ==> Walk(packet, offset + 1 + |labels[0]|, budget - 1) == Walked(labels[1..], budget - 1)
    ensures Walk(packet, offset, budget) == Walked(labels, budget)
    ensures InPlaceEnd(packet, offset) == InPlaceEnd(packet, offset + 1 + |labels[0]|)
  {
    assert [labels[0]] + labels[1..] == labels;
  }

  lemma OnlyTerminator(packet: seq<Byte>, offset: nat, budget: nat)
    requires WrittenAt(packet, offset, TERMINATOR)
    ensures Walk(packet, offset, budget) == Walked([], budget)
    ensures InPlaceEnd(packet, offset) == Some(offset + 1)
  {
    assert packet[offset] == packet[offset..offset + 1][0];
  }

  /** Any budget above the number of labels is enough, and no smaller one is. */
  lemma {:induction false} PlainWalk(packet: seq<Byte>, offset: nat, labels: seq<Label>, budget: nat)
    requires LegalLabels(labels) && WrittenAt(packet, offset, Encode(labels))
    ensures Walk(packet, offset, budget) == Walked(labels, budget)
    ensures InPlaceEnd(packet, offset) == Some(offset + |Encode(labels)|)
    decreases |labels|
  {
    if labels == [] {
      OnlyTerminator(packet, offset, budget);
    } else {
      FirstLabelWrittenAt(packet, offset, labels);
      PlainWalk(packet, offset + 1 + |labels[0]|, labels[1..], if budget == 0 then 0 else budget - 1);
      OneLabelMore(packet, offset, labels, budget);
    }
  }

  /** At any place of any packet: at most 127 labels decode, more never do. */
  lemma PlainNameDecodesUpTo127(before: seq<Byte>, labels: seq<Label>, behind: seq<Byte>)
    requires LegalLabels(labels)
    ensures Decode(before + Encode(labels) + behind, |before|)
         == if |labels| <= 127 then Some(Name(Dotted(labels), |before| + |Encode(labels)|)) else None
  {
    var packet := before + Encode(labels) + behind;
    assert WrittenAt(packet, |before|, Encode(labels));
    PlainWalk(packet, |before|, labels, MAX_STEPS);
  }

  lemma {:induction false} WireLength(labels: seq<Label>)
    requires LegalLabels(labels)
    ensures |Encode(labels)| >= 2 * |labels| + 1
  {
    if labels != [] {
      WireLength(labels[1..]);
    }
  }

  /** The budget covers every name within the 255 octets of section 2.3.4 of RFC 1035. */
  lemma LegalNameDecodes(before: seq<Byte>, labels: seq<Label>, behind: seq<Byte>)
    requires LegalLabels(labels) && |Encode(labels)| <= 255
    ensures |labels| <= 127
    ensures Decode(before + Encode(labels) + behind, |before|)
         == Some(Name(Dotted(labels), |before| + |Encode(labels)|))
  {
    WireLength(labels);
    PlainNameDecodesUpTo127(before, labels, behind);
  }

  /** The bound is reached: 127 one-octet labels take 255 octets. One label more does not decode. */
  lemma LongestName(labels: seq<Label>)
    requires forall i :: 0 <= i < |labels| ==> |labels[i]| == 1
    ensures LegalLabels(labels) && |Encode(labels)| == 2 * |labels| + 1
    ensures |labels| == 127 ==> |Encode(labels)| == 255 && Decode(Encode(labels), 0).Some?
    ensures |labels| == 128 ==> |Encode(labels)| == 257 && Decode(Encode(labels), 0) == None
  {
    ShortLabelsLength(labels);
    PlainNameDecodesUpTo127([], labels, []);
    assert [] + Encode(labels) + [] == Encode(labels);
  }

  lemma {:induction false} ShortLabelsLength(labels: seq<Label>)
    requires forall i :: 0 <= i < |labels| ==> |labels[i]| == 1
    ensures |Encode(labels)| == 2 * |labels| + 1
  {
    if labels != [] {
      ShortLabelsLength(labels[1..]);
    }
  }

  // ---------- the dotted text ----------

  /** What the dots of a text separate. */
  function Split(s: string): (pieces: seq<string>)
    ensures pieces != []
    ensures forall i :: 0 <= i < |pieces| ==> '.' !in pieces[i]
  {
    var n := IndexOf(s, '.');
    if n == |s| then
      assert s[..n] == s;
      [s]
    else [s[..n]] + Split(s[n + 1..])
  }

  /** The labels of a name, split at their dots. */
  function Pieces(labels: seq<Label>): (pieces: seq<string>)
    ensures forall i :: 0 <= i < |pieces| ==> '.' !in pieces[i]
  {
    if labels == [] then [] else Split(labels[0]) + Pieces(labels[1..])
  }

  /** A dot behind every piece. */
  function Lines(pieces: seq<string>): string {
    if pieces == [] then "" else pieces[0] + "." + Lines(pieces[1..])
  }

  lemma {:induction false} LinesAppend(a: seq<string>, b: seq<string>)
    ensures Lines(a + b) == Lines(a) + Lines(b)
  {
    if a == [] {
      assert a + b == b;
    } else {
      assert (a + b)[1..] == a[1..] + b;
      LinesAppend(a[1..], b);
    }
  }

  lemma {:induction false} LinesOfSplit(s: string)
    ensures Lines(Split(s)) == s + "."
    decreases |s|
  {
    var n := IndexOf(s, '.');
    if n == |s| {
      LastPiece(s);
    } else {
      LinesOfSplit(s[n + 1..]);
      FirstLine(s[..n], Split(s[n + 1..]));
      AroundDot(s, n);
      DotsAssociate(s[..n], s[n + 1..]);
    }
  }

  lemma LastPiece(s: string)
    requires IndexOf(s, '.') == |s|
    ensures Lines(Split(s)) == s + "."
  {
    assert s[..|s|] == s;
    assert Lines([s]) == s + "." + Lines([]);
  }

  lemma DotsAssociate(a: string, b: string)
    ensures a + "." + (b + ".") == (a + "." + b) + "."
  {
  }

  lemma FirstLine(piece: string, rest: seq<string>)
    ensures Lines([piece] + rest) == piece + "." + Lines(rest)
  {
    assert ([piece] + rest)[1..] == rest;
  }

  lemma AroundDot(s: string, n: nat)
    requires n < |s| && s[n] == '.'
    ensures s == s[..n] + "." + s[n + 1..]
  {
  }

  lemma {:induction false} DottedIsLines(labels: seq<Label>)
    requires labels != []
    ensures Dotted(labels) == Lines(Pieces(labels))
  {
    LinesOfSplit(labels[0]);
    LinesAppend(Split(labels[0]), Pieces(labels[1..]));
    if |labels| > 1 {
      DottedIsLines(labels[1..]);
    }
  }

  lemma {:induction false} LinesAreInjective(a: seq<string>, b: seq<string>)
    requires forall i :: 0 <= i < |a| ==> '.' !in a[i]
    requires forall i :: 0 <= i < |b| ==> '.' !in b[i]
    requires Lines(a) == Lines(b)
    ensures a == b
  {
    if a != [] && b != [] {
      var s := Lines(a);
      IndexOfIs(s, '.', |a[0]|);
      IndexOfIs(s, '.', |b[0]|);
      assert a[0] == s[..|a[0]|] && b[0] == s[..|b[0]|];
      assert Lines(a[1..]) == s[|a[0]| + 1..] && Lines(b[1..]) == s[|b[0]| + 1..];
      LinesAreInjective(a[1..], b[1..]);
      assert a == [a[0]] + a[1..] && b == [b[0]] + b[1..];
    }
  }

  ghost predicate NonEmpty(labels: seq<Label>) {
    forall i :: 0 <= i < |labels| ==> labels[i] != []
  }

  /** A label that is not empty gives more than a dot, so only the root is ".". */
  lemma DottedRoot(labels: seq<Label>)
    requires NonEmpty(labels)
    ensures Dotted(labels) == "." <==> labels == []
  {
    if labels != [] {
      assert Dotted(labels)[0] == labels[0][0];
      assert |Dotted(labels)| > 1;
    }
  }

  /** Two names have the same text exactly if they have the same pieces: the decoder copies label
      bytes unescaped, so a dot within a label reads like one between labels. */
  lemma SameTextExactlyIfSamePieces(a: seq<Label>, b: seq<Label>)
    requires NonEmpty(a) && NonEmpty(b)
    ensures Dotted(a) == Dotted(b) <==> Pieces(a) == Pieces(b)
  {
    DottedRoot(a);
    DottedRoot(b);
    if a != [] && b != [] {
      DottedIsLines(a);
      DottedIsLines(b);
      if Dotted(a) == Dotted(b) {
        LinesAreInjective(Pieces(a), Pieces(b));
      }
    }
  }

  ghost predicate DotFree(labels: seq<Label>) {
    forall i :: 0 <= i < |labels| ==> labels[i] != [] && '.' !in labels[i]
  }

  lemma {:induction false} DotFreePieces(labels: seq<Label>)
    requires DotFree(labels)
    ensures Pieces(labels) == labels
  {
    if labels != [] {
      DotFreePieces(labels[1..]);
      assert IndexOf(labels[0], '.') == |labels[0]|;
      assert labels == [labels[0]] + labels[1..];
    }
  }

  /** The text of a name without dots in its labels determines the labels; "." is the root alone. */
  lemma DottedIsInjective(a: seq<Label>, b: seq<Label>)
    requires DotFree(a) && DotFree(b) && Dotted(a) == Dotted(b)
    ensures a == b
  {
    SameTextExactlyIfSamePieces(a, b);
    DotFreePieces(a);
    DotFreePieces(b);
  }

  /** With a dot inside a label it does not. */
  lemma DottedConfusesDots()
    ensures Dotted([['a', '.', 'b']]) == Dotted([['a'], ['b']])
  {
    assert Dotted([['a', '.', 'b']]) == "a.b.";
    assert [['a'], ['b']][1..] == [['b']];
  }
}
