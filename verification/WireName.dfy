/** The wire format of domain names (sections 3.1 and 4.1.4 of RFC 1035) and the bounded
    decoder of the load generator. */
module WireName {
  import opened GoStrings

  /** A []byte is a sequence of characters below 256, so taking it as a string changes nothing. */
  type Byte = c: char | c as int < 256 witness '\0'
  type Label = seq<Byte>

  /** The decoder gives up after this many iterations. */
  const MAX_STEPS: nat := 128

  /** What one position of a packet says about the name that continues there. */
  datatype Node = Bad | End | Pointer(target: nat) | Text(bytes: Label, after: nat)

  function NodeAt(packet: seq<Byte>, offset: nat): Node {
    if offset >= |packet| then Bad
    else
      var length := packet[offset] as int;
      if length == 0 then End
      else if length >= 192 then
        if offset + 1 < |packet| then Pointer((length - 192) * 256 + packet[offset + 1] as int) else Bad
      else if length >= 64 || offset + 1 + length > |packet| then Bad
      else Text(packet[offset + 1..offset + 1 + length], offset + 1 + length)
  }

  /** The code tests and clears the two top bits with masks; the model compares numbers. */
  lemma MasksAreComparisons(b: bv8, low: bv8)
    ensures b & 0xC0 == 0xC0 <==> b as int >= 192
    ensures b & 0xC0 != 0 <==> b as int >= 64
    ensures ((b & 0x3F) as bv16 << 8) | (low as bv16) == (b % 64) as bv16 * 256 + low as bv16
  {
  }

  /** The pointer that the code reads from two octets. */
  function Masked(b: bv8, low: bv8): nat {
    (((b & 0x3F) as bv16 << 8) | (low as bv16)) as int
  }

  lemma MaskedIsNumber(b: bv8, low: bv8)
    requires b as int >= 192
    ensures Masked(b, low) == (b as int - 192) * 256 + low as int
  {
    MasksAreComparisons(b, low);
    assert b % 64 == b - 192;
  }

  /** So a position is what the masks of the code say of its octet b and the next one: a terminator; a
      pointer to the 14 bits behind two set top bits; nothing if only one of them is set; otherwise the
      label of that length. */
  lemma {:induction false} NodeIsTheSwitch(packet: seq<Byte>, offset: nat, b: bv8, low: bv8)
    requires offset < |packet| && packet[offset] as int == b as int
    requires offset + 1 < |packet| ==> packet[offset + 1] as int == low as int
    ensures var node := NodeAt(packet, offset);
            && (b & 0xC0 == 0xC0 && offset + 1 < |packet| ==> node == Pointer(Masked(b, low)))
            && (b & 0xC0 != 0 && b & 0xC0 != 0xC0 ==> node.Bad?)
            && (b == 0 ==> node.End?)
            && (b & 0xC0 == 0 && 0 < b as int < |packet| - offset ==>
                  && node.Text? && |node.bytes| == b as int && node.after == offset + 1 + b as int
                  && forall i :: 0 <= i < |node.bytes| ==> node.bytes[i] == packet[offset + 1 + i])
            && (b & 0xC0 == 0 && |packet| - offset <= b as int ==> node.Bad?)
  {
    MasksAreComparisons(b, low);
    if b & 0xC0 == 0xC0 {
      MaskedIsNumber(b, low);
    }
  }

  // ---------- walks ----------

  /** Where a walk goes on from a position: behind a label or through a pointer. */
  function Next(packet: seq<Byte>, offset: nat): Option<nat> {
    match NodeAt(packet, offset)
    case Pointer(target) => Some(target)
    case Text(_, after) => Some(after)
    case _ => None
  }

  ghost predicate IsPath(packet: seq<Byte>, start: nat, path: seq<nat>)
    decreases |path|
  {
    && path != []
    && path[0] == start
    && (|path| > 1 ==> Next(packet, start) == Some(path[1]) && IsPath(packet, path[1], path[1..]))
  }

  /** A walk is a path of any length that ends on a terminator. */
  ghost predicate IsWalk(packet: seq<Byte>, start: nat, path: seq<nat>) {
    IsPath(packet, start, path) && NodeAt(packet, path[|path| - 1]).End?
  }

  /** The labels a path passes, in order. */
  ghost function LabelsOn(packet: seq<Byte>, path: seq<nat>): seq<Label> {
    if path == [] then []
    else match NodeAt(packet, path[0])
      case Text(bytes, _) => [bytes] + LabelsOn(packet, path[1..])
      case _ => LabelsOn(packet, path[1..])
  }

  /** A walk with a budget of positions to look at. */
  function Walk(packet: seq<Byte>, offset: nat, budget: nat): Option<seq<Label>>
    decreases budget, packet, offset
  {
    if budget == 0 then None
    else match NodeAt(packet, offset)
      case Bad => None
      case End => Some([])
      case Pointer(target) => Walk(packet, target, budget - 1)
      case Text(bytes, after) => Before(bytes, Walk(packet, after, budget - 1))
  }

  function Before(bytes: Label, rest: Option<seq<Label>>): Option<seq<Label>> {
    if rest.Some? then Some([bytes] + rest.value) else None
  }

  /** Where the bytes written at `offset` itself end: behind the terminator or the first pointer. */
  function InPlaceEnd(packet: seq<Byte>, offset: nat): Option<nat>
    decreases |packet| - offset
  {
    match NodeAt(packet, offset)
    case Bad => None
    case End => Some(offset + 1)
    case Pointer(_) => Some(offset + 2)
    case Text(_, after) => InPlaceEnd(packet, after)
  }

  // ---------- text of a name ----------

  /** The presentation form the decoder returns; the root is ".". */
  function Dotted(labels: seq<Label>): string {
    Join(labels, ".") + "."
  }

  // ---------- the decoder ----------

  datatype Name = Name(text: string, next: nat)

  /** What the decoder computes, as a function. */
  function Decode(packet: seq<Byte>, start: nat): (r: Option<Name>)
    ensures r.Some? ==> start < r.value.next <= |packet| && InPlaceEnd(packet, start) == Some(r.value.next)
  {
    match Walk(packet, start, MAX_STEPS)
    case None => None
    case Some(labels) =>
      WalkHasInPlaceEnd(packet, start, MAX_STEPS);
      Some(Name(Dotted(labels), InPlaceEnd(packet, start).value))
  }

  /** Where the loop stands: `walked` is the path behind it, `next` where the question goes on. */
  ghost predicate LoopAt(packet: seq<Byte>, start: nat, walked: seq<nat>, offset: nat, labels: seq<Label>,
                         next: nat, jumped: bool) {
    && IsPath(packet, start, walked + [offset])
    && labels == LabelsOn(packet, walked)
    && InPlaceEnd(packet, start) == (if jumped then Some(next) else InPlaceEnd(packet, offset))
    && (jumped || next == offset)
  }

  /** The loop of the source. */
  method DecodeName(packet: seq<Byte>, start: nat) returns (name: string, next: nat, ok: bool)
    ensures !ok ==> name == "" && next == 0
    ensures Decode(packet, start) == if ok then Some(Name(name, next)) else None
  {
    var labels: seq<Label> := [];
    var offset: nat := start;
    var jumped := false;
    ghost var walked: seq<nat> := [];
    next := start;
    for i := 0 to MAX_STEPS
      invariant |walked| == i && LoopAt(packet, start, walked, offset, labels, next, jumped)
    {
      if offset >= |packet| {
        StuckPath(packet, start, walked + [offset]);
        return "", 0, false;
      }
      var length := packet[offset] as int;
      if length == 0 {
        FinishedPath(packet, start, walked, offset, labels, next, jumped);
        if !jumped {
          next := offset + 1;
        }
        return Join(labels, ".") + ".", next, true;
      } else if length >= 192 {
        if offset + 1 >= |packet| {
          StuckPath(packet, start, walked + [offset]);
          return "", 0, false;
        }
        var target := (length - 192) * 256 + packet[offset + 1] as int;
        JumpGoesOn(packet, start, walked, offset, labels, next, jumped, target);
        if !jumped {
          next := offset + 2;
        }
        walked := walked + [offset];
        offset := target;
        jumped := true;
      } else if length >= 64 || offset + 1 + length > |packet| {
        StuckPath(packet, start, walked + [offset]);
        return "", 0, false;
      } else {
        var bytes := packet[offset + 1..offset + 1 + length];
        LabelGoesOn(packet, start, walked, offset, labels, next, jumped, bytes);
        walked := walked + [offset];
        labels := labels + [bytes];
        offset := offset + 1 + length;
        if !jumped {
          next := offset;
        }
      }
    }
    LongPath(packet, start, walked + [offset]);
    return "", 0, false;
  }

  lemma {:induction false} PathGoesOn(packet: seq<Byte>, start: nat, walked: seq<nat>, offset: nat, next: nat)
    requires IsPath(packet, start, walked + [offset]) && Next(packet, offset) == Some(next)
    ensures IsPath(packet, start, walked + [offset] + [next])
    ensures LabelsOn(packet, walked + [offset]) == LabelsOn(packet, walked) + LabelsOn(packet, [offset])
    decreases |walked|
  {
    var path := walked + [offset];
    if walked == [] {
      assert (path + [next])[1..] == [next];
      assert LabelsOn(packet, path[1..]) == [];
    } else {
      assert path[1..] == walked[1..] + [offset];
      assert (path + [next])[1..] == walked[1..] + [offset] + [next];
      PathGoesOn(packet, path[1], walked[1..], offset, next);
    }
  }

  lemma JumpGoesOn(packet: seq<Byte>, start: nat, walked: seq<nat>, offset: nat, labels: seq<Label>,
                   next: nat, jumped: bool, target: nat)
    requires LoopAt(packet, start, walked, offset, labels, next, jumped)
    requires NodeAt(packet, offset) == Pointer(target)
    ensures LoopAt(packet, start, walked + [offset], target, labels, if jumped then next else offset + 2, true)
  {
    PathGoesOn(packet, start, walked, offset, target);
  }

  lemma LabelGoesOn(packet: seq<Byte>, start: nat, walked: seq<nat>, offset: nat, labels: seq<Label>,
                    next: nat, jumped: bool, bytes: Label)
    requires LoopAt(packet, start, walked, offset, labels, next, jumped)
    requires NodeAt(packet, offset) == Text(bytes, offset + 1 + |bytes|)
    ensures LoopAt(packet, start, walked + [offset], offset + 1 + |bytes|, labels + [bytes],
                   if jumped then next else offset + 1 + |bytes|, jumped)
  {
    PathGoesOn(packet, start, walked, offset, offset + 1 + |bytes|);
  }

  lemma FinishedPath(packet: seq<Byte>, start: nat, walked: seq<nat>, offset: nat, labels: seq<Label>,
                     next: nat, jumped: bool)
    requires LoopAt(packet, start, walked, offset, labels, next, jumped)
    requires NodeAt(packet, offset).End? && |walked| < MAX_STEPS
    ensures Decode(packet, start) == Some(Name(Dotted(labels), if jumped then next else offset + 1))
  {
    WalkWithinBudget(packet, start, walked + [offset], MAX_STEPS);
    LabelsEnd(packet, walked, offset);
  }

  lemma {:induction false} LabelsEnd(packet: seq<Byte>, walked: seq<nat>, offset: nat)
    requires NodeAt(packet, offset).End?
    ensures LabelsOn(packet, walked + [offset]) == LabelsOn(packet, walked)
  {
    if walked == [] {
      assert LabelsOn(packet, (walked + [offset])[1..]) == [];
    } else {
      assert (walked + [offset])[1..] == walked[1..] + [offset];
      LabelsEnd(packet, walked[1..], offset);
    }
  }

  lemma StuckPath(packet: seq<Byte>, start: nat, path: seq<nat>)
    requires IsPath(packet, start, path) && NodeAt(packet, path[|path| - 1]).Bad?
    ensures Decode(packet, start) == None
  {
    if Decode(packet, start).Some? {
      var walk := SomeWalk(packet, start, MAX_STEPS);
      PathFollowsWalk(packet, start, path, walk);
      SuffixIsWalk(packet, start, walk, |path| - 1);
    }
  }

  /** A path to a length octet with only one of the two top bits set, or cut off there, is rejected. */
  lemma ReservedLengthIsRejected(packet: seq<Byte>, start: nat, path: seq<nat>)
    requires IsPath(packet, start, path)
    requires path[|path| - 1] < |packet| ==> 64 <= packet[path[|path| - 1]] as int < 192
    ensures Decode(packet, start) == None
  {
    StuckPath(packet, start, path);
  }

  lemma LongPath(packet: seq<Byte>, start: nat, path: seq<nat>)
    requires IsPath(packet, start, path) && |path| > MAX_STEPS
    ensures Decode(packet, start) == None
  {
    if Decode(packet, start).Some? {
      var walk := SomeWalk(packet, start, MAX_STEPS);
      PathFollowsWalk(packet, start, path, walk);
    }
  }

  /** The decoder succeeds exactly on the walks of at most 128 positions, with their labels. */
  lemma DecodeIsTheWalk(packet: seq<Byte>, start: nat)
    ensures Decode(packet, start).Some? <==> exists path :: IsWalk(packet, start, path) && |path| <= MAX_STEPS
    ensures forall path | IsWalk(packet, start, path) && Decode(packet, start).Some? ::
              Decode(packet, start).value.text == Dotted(LabelsOn(packet, path))
  {
    if Decode(packet, start).Some? {
      var walked := SomeWalk(packet, start, MAX_STEPS);
      forall path | IsWalk(packet, start, path)
        ensures path == walked
      {
        WalkIsUnique(packet, start, path, walked);
      }
    }
    forall path | IsWalk(packet, start, path) && |path| <= MAX_STEPS
      ensures Decode(packet, start).Some?
    {
      WalkWithinBudget(packet, start, path, MAX_STEPS);
    }
  }

  lemma {:induction false} SomeWalk(packet: seq<Byte>, start: nat, budget: nat) returns (path: seq<nat>)
    requires Walk(packet, start, budget).Some?
    ensures IsWalk(packet, start, path) && |path| <= budget
    ensures Walk(packet, start, budget) == Some(LabelsOn(packet, path))
    decreases budget
  {
    if NodeAt(packet, start).End? {
      path := [start];
      assert LabelsOn(packet, path) == [];
    } else {
      var rest := SomeWalk(packet, Next(packet, start).value, budget - 1);
      path := [start] + rest;
      assert path[1..] == rest;
    }
  }

  lemma {:induction false} WalkWithinBudget(packet: seq<Byte>, start: nat, path: seq<nat>, budget: nat)
    requires IsWalk(packet, start, path) && |path| <= budget
    ensures Walk(packet, start, budget) == Some(LabelsOn(packet, path))
    decreases budget
  {
    if |path| == 1 {
      assert LabelsOn(packet, path) == [];
    } else {
      WalkWithinBudget(packet, path[1], path[1..], budget - 1);
    }
  }

  lemma {:induction false} WalkHasInPlaceEnd(packet: seq<Byte>, start: nat, budget: nat)
    requires Walk(packet, start, budget).Some?
    ensures InPlaceEnd(packet, start).Some?
    ensures start < InPlaceEnd(packet, start).value <= |packet|
    decreases budget
  {
    match NodeAt(packet, start)
    case End =>
    case Pointer(_) =>
    case Text(_, after) => WalkHasInPlaceEnd(packet, after, budget - 1);
  }

  // ---------- determinism and the pigeonhole bound ----------

  lemma {:induction false} WalkIsUnique(packet: seq<Byte>, start: nat, p: seq<nat>, q: seq<nat>)
    requires IsWalk(packet, start, p) && IsWalk(packet, start, q)
    ensures p == q
    decreases |p|
  {
    if |p| > 1 && |q| > 1 {
      WalkIsUnique(packet, p[1], p[1..], q[1..]);
      assert p == [start] + p[1..] && q == [start] + q[1..];
    }
  }

  lemma {:induction false} SuffixIsWalk(packet: seq<Byte>, start: nat, path: seq<nat>, i: nat)
    requires IsWalk(packet, start, path) && i < |path|
    ensures IsWalk(packet, path[i], path[i..])
    decreases i
  {
    if i == 0 {
      assert path[0..] == path;
    } else {
      SuffixIsWalk(packet, path[1], path[1..], i - 1);
      assert path[1..][i - 1..] == path[i..];
    }
  }

  /** A walk that reaches a terminator never comes back to a position... */
  lemma WalkNeverRevisits(packet: seq<Byte>, start: nat, path: seq<nat>, i: nat, j: nat)
    requires IsWalk(packet, start, path) && i < j < |path|
    ensures path[i] != path[j]
  {
    SuffixIsWalk(packet, start, path, i);
    SuffixIsWalk(packet, start, path, j);
    if path[i] == path[j] {
      WalkIsUnique(packet, path[i], path[i..], path[j..]);
    }
  }

  /** ...so it looks at most once at each byte. */
  lemma WalkFitsInPacket(packet: seq<Byte>, start: nat, path: seq<nat>)
    requires IsWalk(packet, start, path)
    ensures |path| <= |packet|
  {
    forall i | 0 <= i < |path|
      ensures path[i] < |packet|
    {
      SuffixIsWalk(packet, start, path, i);
    }
    forall i, j | 0 <= i < j < |path|
      ensures path[i] != path[j]
    {
      WalkNeverRevisits(packet, start, path, i, j);
    }
    Pigeonhole(path, |packet|);
  }

  lemma {:induction false} Pigeonhole(s: seq<nat>, n: nat)
    requires forall i :: 0 <= i < |s| ==> s[i] < n
    requires forall i, j :: 0 <= i < j < |s| ==> s[i] != s[j]
    ensures |s| <= n
  {
    if s != [] {
      assert s[0] < n;
      if k :| 0 <= k < |s| && s[k] == n - 1 {
        Pigeonhole(s[..k] + s[k + 1..], n - 1);
      } else {
        Pigeonhole(s[1..], n - 1);
      }
    }
  }

  /** Every start whose path runs into a pointer cycle is rejected, whatever the budget. */
  lemma CycleIsRejected(packet: seq<Byte>, start: nat, path: seq<nat>, i: nat, j: nat)
    requires IsPath(packet, start, path) && i < j < |path| && path[i] == path[j]
    ensures forall walk :: !IsWalk(packet, start, walk)
    ensures Decode(packet, start) == None
  {
    forall walk
      ensures !IsWalk(packet, start, walk)
    {
      if IsWalk(packet, start, walk) {
        PathFollowsWalk(packet, start, path, walk);
        WalkNeverRevisits(packet, start, walk, i, j);
      }
    }
    DecodeIsTheWalk(packet, start);
  }

  lemma {:induction false} PathFollowsWalk(packet: seq<Byte>, start: nat, path: seq<nat>, walk: seq<nat>)
    requires IsPath(packet, start, path) && IsWalk(packet, start, walk)
    ensures path <= walk
    decreases |path|
  {
    if |path| > 1 {
      PathFollowsWalk(packet, path[1], path[1..], walk[1..]);
      assert path == [start] + path[1..] && walk == [start] + walk[1..];
    }
  }

  /** In a packet of at most 128 bytes the bounded loop accepts what an unbounded one would. */
  lemma SmallPacketsNeedNoBudget(packet: seq<Byte>, start: nat)
    requires |packet| <= MAX_STEPS
    ensures Decode(packet, start).Some? <==> exists path :: IsWalk(packet, start, path)
  {
    DecodeIsTheWalk(packet, start);
    forall path | IsWalk(packet, start, path)
      ensures |path| <= MAX_STEPS
    {
      WalkFitsInPacket(packet, start, path);
    }
  }

  // ---------- what a walk depends on ----------

  /** `next` is fixed by the bytes from the start to `next`, whatever surrounds them. */
  lemma {:induction false} NextIsLocal(p: seq<Byte>, q: seq<Byte>, start: nat, next: nat)
    requires InPlaceEnd(p, start) == Some(next)
    requires next <= |p| && next <= |q| && start <= next && p[start..next] == q[start..next]
    ensures InPlaceEnd(q, start) == Some(next)
    decreases |p| - start
  {
    InPlaceEndIsForward(p, start);
    assert p[start] == p[start..next][0] == q[start..next][0] == q[start];
    match NodeAt(p, start)
    case End =>
    case Pointer(_) =>
    case Text(_, after) =>
      InPlaceEndIsForward(p, after);
      assert p[after..next] == p[start..next][after - start..] == q[after..next];
      NextIsLocal(p, q, after, next);
  }

  lemma {:induction false} InPlaceEndIsForward(packet: seq<Byte>, offset: nat)
    requires InPlaceEnd(packet, offset).Some?
    ensures offset < InPlaceEnd(packet, offset).value
    decreases |packet| - offset
  {
    if NodeAt(packet, offset).Text? {
      InPlaceEndIsForward(packet, NodeAt(packet, offset).after);
    }
  }

  lemma NodeSurvivesAppend(packet: seq<Byte>, more: seq<Byte>, offset: nat)
    requires !NodeAt(packet, offset).Bad?
    ensures NodeAt(packet + more, offset) == NodeAt(packet, offset)
  {
    var node := NodeAt(packet, offset);
    if node.Text? {
      assert (packet + more)[offset + 1..node.after] == packet[offset + 1..node.after];
    }
  }

  lemma {:induction false} WalkSurvivesAppend(packet: seq<Byte>, more: seq<Byte>, offset: nat, budget: nat, enough: nat)
    requires budget <= enough && Walk(packet, offset, enough).Some?
    ensures Walk(packet + more, offset, budget) == Walk(packet, offset, budget)
    decreases budget
  {
    NodeSurvivesAppend(packet, more, offset);
    if budget > 0 && Next(packet, offset).Some? {
      WalkSurvivesAppend(packet, more, Next(packet, offset).value, budget - 1, enough - 1);
    }
  }

  /** Bytes behind a packet never change a name that decodes. */
  lemma DecodeSurvivesAppend(packet: seq<Byte>, more: seq<Byte>, start: nat)
    requires Decode(packet, start).Some?
    ensures Decode(packet + more, start) == Decode(packet, start)
  {
    WalkSurvivesAppend(packet, more, start, MAX_STEPS, MAX_STEPS);
    WalkHasInPlaceEnd(packet, start, MAX_STEPS);
    var next := Decode(packet, start).value.next;
    assert (packet + more)[start..next] == packet[start..next];
    NextIsLocal(packet, packet + more, start, next);
  }
}
