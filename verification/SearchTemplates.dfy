/** Search domains with placeholders: the regular expression that finds their keys, the part of the
    template language the expression speaks about, and its rendering. */
module SearchTemplates {
  import opened GoStrings

  // ---------- the expression {{\s*\.([a-zA-Z0-9_]+)\s*}} ----------

  /** \s of the expression. */
  predicate IsSpace(c: char) {
    c in {' ', '\t', '\n', '\r', '\U{C}'}
  }

  predicate IsWord(c: char) {
    'a' <= c <= 'z' || 'A' <= c <= 'Z' || '0' <= c <= '9' || c == '_'
  }

  const LOWER := "abcdefghijklmnopqrstuvwxyz"
  const UPPER := "ABCDEFGHIJKLMNOPQRSTUVWXYZ"
  const DIGITS := "0123456789"

  /** The class [a-zA-Z0-9_], written out. */
  lemma WordCharacters(c: char)
    ensures IsWord(c) <==> c in LOWER || c in UPPER || c in DIGITS || c == '_'
  {
    InAlphabet(LOWER, 'a', c);
    InAlphabet(UPPER, 'A', c);
    InAlphabet(DIGITS, '0', c);
  }

  lemma InAlphabet(alphabet: string, first: char, c: char)
    requires forall i :: 0 <= i < |alphabet| ==> alphabet[i] as int == first as int + i
    ensures c in alphabet <==> first as int <= c as int < first as int + |alphabet|
  {
    if first as int <= c as int < first as int + |alphabet| {
      assert alphabet[c as int - first as int] == c;
    }
  }

  ghost predicate Spaces(s: string) {
    forall i :: 0 <= i < |s| ==> IsSpace(s[i])
  }

  ghost predicate Word(s: string) {
    s != "" && forall i :: 0 <= i < |s| ==> IsWord(s[i])
  }

  function Placeholder(before: string, key: string, behind: string): string {
    "{{" + before + "." + key + behind + "}}"
  }

  /** What it means that the first n characters of a text match the expression with this key. */
  ghost predicate Matches(s: string, n: nat, key: string) {
    && n <= |s|
    && Word(key)
    && exists before, behind :: Spaces(before) && Spaces(behind) && s[..n] == Placeholder(before, key, behind)
  }

  datatype Match = Match(key: string, length: nat)

  function DropSpaces(s: string): (rest: string)
    ensures |rest| <= |s|
  {
    if s == "" || !IsSpace(s[0]) then s else DropSpaces(s[1..])
  }

  function WordRun(s: string): (n: nat)
    ensures n <= |s|
  {
    if s == "" || !IsWord(s[0]) then 0 else 1 + WordRun(s[1..])
  }

  /** The match at the start of a text, read greedily; the classes of the expression are disjoint
      from what follows them, so no other reading exists. */
  function MatchHere(s: string): (m: Option<Match>)
    ensures m.Some? ==> 0 < m.value.length <= |s|
  {
    if "{{" <= s then MatchDot(DropSpaces(s[2..]), |s|) else None
  }

  function MatchDot(s: string, total: nat): (m: Option<Match>)
    requires |s| <= total
    ensures m.Some? ==> total - |s| < m.value.length <= total
  {
    if "." <= s then MatchWord(s[1..], total) else None
  }

  function MatchWord(s: string, total: nat): (m: Option<Match>)
    requires |s| <= total
    ensures m.Some? ==> total - |s| < m.value.length <= total
  {
    var n := WordRun(s);
    if n > 0 then MatchClose(s[..n], DropSpaces(s[n..]), total) else None
  }

  function MatchClose(key: string, s: string, total: nat): (m: Option<Match>)
    requires |s| <= total
    ensures m.Some? ==> total - |s| < m.value.length <= total
  {
    if "}}" <= s then Some(Match(key, total - |s| + 2)) else None
  }

  lemma {:induction false} SpacesDropped(s: string) returns (space: string)
    ensures Spaces(space) && s == space + DropSpaces(s)
  {
    if s == "" || !IsSpace(s[0]) {
      space := "";
      assert s == space + s;
    } else {
      var more := SpacesDropped(s[1..]);
      space := [s[0]] + more;
      assert s == [s[0]] + s[1..];
    }
  }

  lemma {:induction false} WordRunIsWord(s: string)
    ensures forall i :: 0 <= i < WordRun(s) ==> IsWord(s[i])
  {
    if s != "" && IsWord(s[0]) {
      WordRunIsWord(s[1..]);
    }
  }

  lemma {:induction false} SpacesEnd(space: string, rest: string)
    requires Spaces(space) && rest != "" && !IsSpace(rest[0])
    ensures DropSpaces(space + rest) == rest
  {
    if space == "" {
      assert space + rest == rest;
    } else {
      SpacesEnd(space[1..], rest);
      assert (space + rest)[1..] == space[1..] + rest;
    }
  }

  lemma {:induction false} WordEnds(word: string, rest: string)
    requires forall i :: 0 <= i < |word| ==> IsWord(word[i])
    requires rest != "" && !IsWord(rest[0])
    ensures WordRun(word + rest) == |word|
  {
    if word == "" {
      assert word + rest == rest;
    } else {
      WordEnds(word[1..], rest);
      assert (word + rest)[1..] == word[1..] + rest;
    }
  }

  lemma Regroup(before: string, key: string, behind: string, rest: string)
    ensures Placeholder(before, key, behind) + rest == "{{" + (before + ("." + (key + (behind + ("}}" + rest)))))
  {
  }

  lemma PlaceholderIsMatched(before: string, key: string, behind: string, rest: string)
    requires Spaces(before) && Word(key) && Spaces(behind)
    ensures MatchHere(Placeholder(before, key, behind) + rest)
         == Some(Match(key, |Placeholder(before, key, behind)|))
  {
    var close := "}}" + rest;
    var word := key + (behind + close);
    var dot := "." + word;
    var s := "{{" + (before + dot);
    Regroup(before, key, behind, rest);
    SpacesEnd(before, dot);
    assert s[2..] == before + dot && dot[1..] == word;
    assert MatchHere(s) == MatchDot(dot, |s|) == MatchWord(word, |s|);
    WordIsMatched(key, behind, close, |s|);
  }

  lemma WordIsMatched(key: string, behind: string, close: string, total: nat)
    requires Word(key) && Spaces(behind) && "}}" <= close && |key + (behind + close)| <= total
    ensures MatchWord(key + (behind + close), total) == Some(Match(key, total - |close| + 2))
  {
    var word := key + (behind + close);
    WordEnds(key, behind + close);
    SpacesEnd(behind, close);
    assert word[..|key|] == key && word[|key|..] == behind + close;
  }

  lemma MatchIsPlaceholder(s: string)
    requires MatchHere(s).Some?
    ensures Matches(s, MatchHere(s).value.length, MatchHere(s).value.key)
  {
    var dot := DropSpaces(s[2..]);
    var n := WordRun(dot[1..]);
    var key, close := dot[1..][..n], DropSpaces(dot[1..][n..]);
    var before := SpacesDropped(s[2..]);
    var behind := SpacesDropped(dot[1..][n..]);
    WordRunIsWord(dot[1..]);
    Rejoin(dot[1..], n, behind, close);
    Reassemble(s, before, dot, key, behind, close);
    MatchesBy(s, |s| - |close| + 2, before, key, behind);
  }

  lemma MatchesBy(s: string, n: nat, before: string, key: string, behind: string)
    requires n <= |s| && Word(key) && Spaces(before) && Spaces(behind) && s[..n] == Placeholder(before, key, behind)
    ensures Matches(s, n, key)
  {
  }

  lemma Rejoin(word: string, n: nat, behind: string, close: string)
    requires n <= |word| && word[n..] == behind + close
    ensures word == word[..n] + (behind + close)
  {
  }

  lemma Reassemble(s: string, before: string, dot: string, key: string, behind: string, close: string)
    requires "{{" <= s && s[2..] == before + dot && "." <= dot && dot[1..] == key + (behind + close) && "}}" <= close
    ensures var n := |s| - |close| + 2;
            n <= |s| && s[..n] == Placeholder(before, key, behind)
  {
    assert dot == "." + (key + (behind + close));
    assert close == "}}" + close[2..];
    assert s == "{{" + (before + dot);
    Regroup(before, key, behind, close[2..]);
  }

  /** The scanner finds exactly the matches of the expression. */
  lemma MatchHereIsTheExpression(s: string, n: nat, key: string)
    ensures MatchHere(s) == Some(Match(key, n)) <==> Matches(s, n, key)
  {
    if Matches(s, n, key) {
      var before, behind :| Spaces(before) && Spaces(behind) && s[..n] == Placeholder(before, key, behind);
      PlaceholderIsMatched(before, key, behind, s[n..]);
      assert s == s[..n] + s[n..];
    }
    if MatchHere(s) == Some(Match(key, n)) {
      MatchIsPlaceholder(s);
    }
  }

  // ---------- finding all matches ----------

  /** FindAllStringSubmatch: the keys of the leftmost matches that do not overlap. */
  function KeysIn(s: string): seq<string>
    decreases |s|
  {
    if s == "" then []
    else match MatchHere(s)
      case Some(m) => [m.key] + KeysIn(s[m.length..])
      case None => KeysIn(s[1..])
  }

  /** The keys of the matches at every position. */
  ghost function KeysEverywhere(s: string): seq<string> {
    if s == "" then []
    else (match MatchHere(s) case Some(m) => [m.key] case None => []) + KeysEverywhere(s[1..])
  }

  lemma BracesOnlyInFront(before: string, key: string, behind: string, i: nat)
    requires Spaces(before) && Word(key) && Spaces(behind) && 1 < i < |Placeholder(before, key, behind)|
    ensures Placeholder(before, key, behind)[i] != '{'
  {
    var p, dot := Placeholder(before, key, behind), 2 + |before|;
    if i < dot {
      assert p[i] == before[i - 2];
    } else if dot < i <= dot + |key| {
      assert p[i] == key[i - dot - 1];
    } else if dot + |key| < i < |p| - 2 {
      assert p[i] == behind[i - dot - 1 - |key|];
    }
  }

  /** No match begins inside another, so skipping what has matched loses nothing. */
  lemma MatchesDoNotOverlap(s: string, i: nat)
    requires MatchHere(s).Some? && 0 < i < MatchHere(s).value.length
    ensures MatchHere(s[i..]) == None
  {
    var m := MatchHere(s).value;
    MatchIsPlaceholder(s);
    var before, behind :| Spaces(before) && Spaces(behind) && s[..m.length] == Placeholder(before, m.key, behind);
    var inside := if i + 1 < m.length then i + 1 else i;
    BracesOnlyInFront(before, m.key, behind, inside);
    assert s[inside] == s[..m.length][inside];
  }

  lemma {:induction false} SkippingLosesNothing(s: string)
    ensures KeysIn(s) == KeysEverywhere(s)
    decreases |s|
  {
    if s != "" {
      match MatchHere(s)
      case None =>
        SkippingLosesNothing(s[1..]);
      case Some(m) =>
        SkippingLosesNothing(s[m.length..]);
        NothingInside(s, 1);
    }
  }

  lemma {:induction false} NothingInside(s: string, i: nat)
    requires MatchHere(s).Some? && 0 < i <= MatchHere(s).value.length
    ensures KeysEverywhere(s[i..]) == KeysEverywhere(s[MatchHere(s).value.length..])
    decreases |s| - i
  {
    if i < MatchHere(s).value.length {
      MatchesDoNotOverlap(s, i);
      NothingInside(s, i + 1);
      assert s[i..][1..] == s[i + 1..];
    }
  }

  /** A key is found exactly when the expression matches with it somewhere. */
  lemma {:induction false} KeysAreAllMatches(s: string, key: string)
    ensures key in KeysIn(s) <==> exists i, n :: 0 <= i <= |s| && Matches(s[i..], n, key)
    decreases |s|
  {
    SkippingLosesNothing(s);
    if s == "" {
      forall i, n | 0 <= i <= |s|
        ensures !Matches(s[i..], n, key)
      {
        MatchHereIsTheExpression(s[i..], n, key);
      }
    } else {
      KeysAreAllMatches(s[1..], key);
      SkippingLosesNothing(s[1..]);
      forall i, n | 0 <= i <= |s| && Matches(s[i..], n, key)
        ensures key in KeysIn(s)
      {
        if i == 0 {
          assert s[0..] == s;
          MatchHereIsTheExpression(s, n, key);
        } else {
          assert s[1..][i - 1..] == s[i..];
        }
      }
      if key in KeysIn(s[1..]) {
        var i, n :| 0 <= i <= |s[1..]| && Matches(s[1..][i..], n, key);
        assert s[1..][i..] == s[i + 1..];
      } else if key in KeysIn(s) {
        MatchHereIsTheExpression(s, MatchHere(s).value.length, key);
        assert s[0..] == s;
      }
    }
  }

  // ---------- templates ----------

  /** The part of the template language the expression speaks about: literal text and actions that
      insert one field. */
  datatype Template =
    | Last(text: string)
    | Then(text: string, before: string, key: string, behind: string, rest: Template)

  function Print(t: Template): string {
    match t
    case Last(text) => text
    case Then(text, before, key, behind, rest) => text + (Placeholder(before, key, behind) + Print(rest))
  }

  function FieldNames(t: Template): seq<string> {
    match t
    case Last(_) => []
    case Then(_, _, key, _, rest) => [key] + FieldNames(rest)
  }

  /** No action begins in the text, nor half in it and half behind it. */
  ghost predicate Plain(text: string) {
    forall i :: 0 <= i < |text| - 1 ==> !(text[i] == '{' && text[i + 1] == '{')
  }

  /** Space to the template lexer: the form feed of the expression is not. */
  predicate Blanks(s: string) {
    forall i :: 0 <= i < |s| ==> s[i] in {' ', '\t', '\n', '\r'}
  }

  /** A field name starts with a letter or an underscore. */
  predicate FieldName(key: string) {
    && key != "" && !('0' <= key[0] <= '9')
    && forall i :: 0 <= i < |key| ==> IsWord(key[i])
  }

  ghost predicate WellFormed(t: Template) {
    match t
    case Last(text) => Plain(text)
    case Then(text, before, key, behind, rest) =>
      && Plain(text) && (text != "" ==> text[|text| - 1] != '{')
      && Blanks(before) && FieldName(key) && Blanks(behind)
      && WellFormed(rest)
  }

  lemma {:induction false} KeysBehindText(text: string, rest: string)
    requires Plain(text) && (text != "" && rest != "" ==> text[|text| - 1] != '{')
    ensures KeysIn(text + rest) == KeysIn(rest)
  {
    if text == "" {
      assert text + rest == rest;
    } else {
      var s := text + rest;
      assert s[0] == text[0] && (|text| > 1 ==> s[1] == text[1]);
      assert MatchHere(s) == None;
      assert s[1..] == text[1..] + rest;
      KeysBehindText(text[1..], rest);
    }
  }

  /** Extraction inverts printing: the keys found are the fields used, in order. */
  lemma {:induction false} ExtractionInvertsPrinting(t: Template)
    requires WellFormed(t)
    ensures KeysIn(Print(t)) == FieldNames(t)
  {
    match t
    case Last(text) =>
      KeysBehindText(text, "");
      assert text + "" == text;
    case Then(text, before, key, behind, rest) =>
      var s := Placeholder(before, key, behind) + Print(rest);
      KeysBehindText(text, s);
      PlaceholderIsMatched(before, key, behind, Print(rest));
      assert s[|Placeholder(before, key, behind)|..] == Print(rest);
      ExtractionInvertsPrinting(rest);
  }

  // ---------- parsing ----------

  /** The position of the first two opening braces in a row, or the length. */
  function FirstOpen(s: string): (i: nat)
    ensures i <= |s|
  {
    if s == "" || "{{" <= s then 0 else 1 + FirstOpen(s[1..])
  }

  /** The placeholder at the start of a text, taken apart. */
  datatype Action = Action(before: string, key: string, behind: string)

  function ActionHere(s: string): Option<Action> {
    if MatchHere(s) == None then None
    else
      var dot := DropSpaces(s[2..]);
      var word := dot[1..];
      var n := WordRun(word);
      var close := DropSpaces(word[n..]);
      Some(Action(s[2..][..|s[2..]| - |dot|], word[..n], word[n..][..|word[n..]| - |close|]))
  }

  /** The template a text denotes, if it is one of these templates. */
  function Parse(s: string): Option<Template>
    decreases |s|
  {
    var i := FirstOpen(s);
    if i == |s| then Some(Last(s))
    else match ActionHere(s[i..])
      case None => None
      case Some(a) =>
        if !Blanks(a.before) || !FieldName(a.key) || !Blanks(a.behind) then None
        else match Parse(s[i..][MatchHere(s[i..]).value.length..])
          case None => None
          case Some(rest) => Some(Then(s[..i], a.before, a.key, a.behind, rest))
  }

  lemma {:induction false} FirstOpenBehindText(text: string, rest: string)
    requires Plain(text) && (text != "" && rest != "" ==> text[|text| - 1] != '{')
    requires rest == "" || "{{" <= rest
    ensures FirstOpen(text + rest) == |text|
  {
    if text == "" {
      assert text + rest == rest;
    } else {
      var s := text + rest;
      assert s[0] == text[0] && (|text| > 1 ==> s[1] == text[1]);
      assert s[1..] == text[1..] + rest;
      FirstOpenBehindText(text[1..], rest);
    }
  }

  lemma {:induction false} TextBeforeFirstOpen(s: string)
    ensures Plain(s[..FirstOpen(s)])
    ensures 0 < FirstOpen(s) < |s| ==> s[FirstOpen(s) - 1] != '{'
    ensures FirstOpen(s) < |s| ==> "{{" <= s[FirstOpen(s)..]
  {
    if s != "" && !("{{" <= s) {
      TextBeforeFirstOpen(s[1..]);
      var text, tail := s[..FirstOpen(s)], s[1..][..FirstOpen(s[1..])];
      assert text == [s[0]] + tail;
      assert |tail| > 0 ==> tail[0] == s[1];
      assert FirstOpen(s) < |s| ==> s[1..][FirstOpen(s[1..])..] == s[FirstOpen(s)..];
    }
  }

  lemma ActionReadsBack(before: string, key: string, behind: string, rest: string)
    requires Spaces(before) && Word(key) && Spaces(behind)
    ensures ActionHere(Placeholder(before, key, behind) + rest) == Some(Action(before, key, behind))
  {
    var close := "}}" + rest;
    var word := key + (behind + close);
    var dot := "." + word;
    PlaceholderIsMatched(before, key, behind, rest);
    Regroup(before, key, behind, rest);
    SpacesEnd(before, dot);
    WordEnds(key, behind + close);
    SpacesEnd(behind, close);
    ActionStages("{{" + (before + dot), before, dot, key, behind, close);
  }

  lemma ActionStages(s: string, before: string, dot: string, key: string, behind: string, close: string)
    requires "{{" <= s && s[2..] == before + dot && dot == DropSpaces(s[2..]) && MatchHere(s).Some?
    requires "." <= dot && dot[1..] == key + (behind + close) && WordRun(dot[1..]) == |key|
    requires DropSpaces(behind + close) == close
    ensures ActionHere(s) == Some(Action(before, key, behind))
  {
    assert dot[1..][|key|..] == behind + close;
  }

  lemma ActionIsAtStart(s: string)
    requires ActionHere(s).Some?
    ensures var a := ActionHere(s).value;
            s == Placeholder(a.before, a.key, a.behind) + s[MatchHere(s).value.length..]
  {
    var dot := DropSpaces(s[2..]);
    var word := dot[1..];
    var n := WordRun(word);
    var a := ActionHere(s).value;
    DropSpacesIsSuffix(s[2..]);
    DropSpacesIsSuffix(word[n..]);
    Rejoin(word, n, a.behind, DropSpaces(word[n..]));
    Reassemble(s, a.before, dot, a.key, a.behind, DropSpaces(word[n..]));
    Split(s, MatchHere(s).value.length);
  }

  lemma Split(s: string, n: nat)
    requires n <= |s|
    ensures s == s[..n] + s[n..]
  {
  }

  lemma DropSpacesIsSuffix(s: string)
    ensures s == s[..|s| - |DropSpaces(s)|] + DropSpaces(s)
  {
    var space := SpacesDropped(s);
    assert s[..|s| - |DropSpaces(s)|] == space;
  }

  /** Parsing inverts printing... */
  lemma {:induction false} ParseInvertsPrint(t: Template)
    requires WellFormed(t)
    ensures Parse(Print(t)) == Some(t)
  {
    match t
    case Last(text) =>
      FirstOpenBehindText(text, "");
      assert text + "" == text;
    case Then(text, before, key, behind, rest) =>
      var action := Placeholder(before, key, behind);
      var tail := action + Print(rest);
      FirstOpenBehindText(text, tail);
      PlaceholderIsMatched(before, key, behind, Print(rest));
      ActionReadsBack(before, key, behind, Print(rest));
      ParseInvertsPrint(rest);
      ParseThen(text, tail, Action(before, key, behind), |action|, Print(rest), rest);
  }

  lemma ParseThen(text: string, tail: string, a: Action, length: nat, behind: string, rest: Template)
    requires FirstOpen(text + tail) == |text| && tail != ""
    requires ActionHere(tail) == Some(a) && MatchHere(tail) == Some(Match(a.key, length))
    requires Blanks(a.before) && FieldName(a.key) && Blanks(a.behind)
    requires length <= |tail| && tail[length..] == behind && Parse(behind) == Some(rest)
    ensures Parse(text + tail) == Some(Then(text, a.before, a.key, a.behind, rest))
  {
    assert (text + tail)[..|text|] == text && (text + tail)[|text|..] == tail;
  }

  /** ...and only printed templates parse. */
  lemma {:induction false} PrintInvertsParse(s: string)
    requires Parse(s).Some?
    ensures WellFormed(Parse(s).value) && Print(Parse(s).value) == s
    decreases |s|
  {
    var i := FirstOpen(s);
    TextBeforeFirstOpen(s);
    if i == |s| {
      assert s[..i] == s;
    } else {
      var tail := s[i..];
      var behind := tail[MatchHere(tail).value.length..];
      ActionIsAtStart(tail);
      PrintInvertsParse(behind);
      Split(s, i);
    }
  }

  /** So for every text of the sublanguage the expression finds the fields of its template. */
  lemma KeysAreFields(s: string)
    requires Parse(s).Some?
    ensures KeysIn(s) == FieldNames(Parse(s).value)
  {
    PrintInvertsParse(s);
    ExtractionInvertsPrinting(Parse(s).value);
  }

  // ---------- rendering ----------

  /** Execution with missingkey=error. */
  function Render(t: Template, parameters: map<string, string>): Option<string> {
    match t
    case Last(text) => Some(text)
    case Then(text, _, key, _, rest) =>
      if key !in parameters then None
      else match Render(rest, parameters)
        case None => None
        case Some(tail) => Some(text + parameters[key] + tail)
  }

  lemma {:induction false} RendersIffKeysAreSet(t: Template, parameters: map<string, string>)
    ensures Render(t, parameters).Some? <==> forall k :: k in FieldNames(t) ==> k in parameters
  {
    match t
    case Last(_) =>
    case Then(_, _, key, _, rest) =>
      RendersIffKeysAreSet(rest, parameters);
      assert FieldNames(t) == [key] + FieldNames(rest);
  }

  /** A text with its placeholders filled in: where the expression matches, the match is cut out and
      the namespace or the domain put there, as its key says; all other characters stay. */
  ghost predicate FilledIn(text: string, out: string, namespace: string, domain: string)
    decreases |text|
  {
    if text == "" then out == ""
    else match MatchHere(text)
      case Some(m) =>
        var value := if m.key == "podNamespace" then namespace else domain;
        && (m.key == "podNamespace" || m.key == "clusterDomain")
        && value <= out && FilledIn(text[m.length..], out[|value|..], namespace, domain)
      case None => out != "" && out[0] == text[0] && FilledIn(text[1..], out[1..], namespace, domain)
  }

  /** There is one such result at most. */
  lemma {:induction false} FilledInIsUnique(text: string, a: string, b: string, namespace: string, domain: string)
    requires FilledIn(text, a, namespace, domain) && FilledIn(text, b, namespace, domain)
    ensures a == b
    decreases |text|
  {
    if text != "" {
      match MatchHere(text)
      case Some(m) =>
        var value := if m.key == "podNamespace" then namespace else domain;
        FilledInIsUnique(text[m.length..], a[|value|..], b[|value|..], namespace, domain);
        SameHead(a, b, |value|);
      case None =>
        FilledInIsUnique(text[1..], a[1..], b[1..], namespace, domain);
        assert a[..1] == [a[0]] && b[..1] == [b[0]];
        SameHead(a, b, 1);
    }
  }

  lemma SameHead(a: string, b: string, n: nat)
    requires n <= |a| && n <= |b| && a[..n] == b[..n] && a[n..] == b[n..]
    ensures a == b
  {
    Split(a, n);
    Split(b, n);
  }

  lemma {:induction false} FilledInBehindText(text: string, rest: string, out: string, namespace: string, domain: string)
    requires Plain(text) && (text != "" && rest != "" ==> text[|text| - 1] != '{')
    requires FilledIn(rest, out, namespace, domain)
    ensures FilledIn(text + rest, text + out, namespace, domain)
  {
    if text == "" {
      assert text + rest == rest && text + out == out;
    } else {
      NoMatchInText(text, rest);
      TailOfSum(text, rest);
      TailOfSum(text, out);
      FilledInBehindText(text[1..], rest, out, namespace, domain);
    }
  }

  lemma NoMatchInText(text: string, rest: string)
    requires text != "" && Plain(text) && (rest != "" ==> text[|text| - 1] != '{')
    ensures MatchHere(text + rest) == None
  {
    var s := text + rest;
    assert s[0] == text[0] && (|text| > 1 ==> s[1] == text[1]);
  }

  lemma TailOfSum(a: string, b: string)
    requires a != ""
    ensures (a + b)[1..] == a[1..] + b && (a + b)[0] == a[0]
  {
  }

  lemma {:induction false} FilledInAction(before: string, key: string, behind: string, rest: string, out: string,
                                          namespace: string, domain: string)
    requires Spaces(before) && Word(key) && Spaces(behind) && (key == "podNamespace" || key == "clusterDomain")
    requires FilledIn(rest, out, namespace, domain)
    ensures FilledIn(Placeholder(before, key, behind) + rest,
                     (if key == "podNamespace" then namespace else domain) + out, namespace, domain)
  {
    var action, value := Placeholder(before, key, behind), if key == "podNamespace" then namespace else domain;
    PlaceholderIsMatched(before, key, behind, rest);
    assert (action + rest)[|action|..] == rest && (value + out)[|value|..] == out;
  }

  lemma {:induction false} FilledInThen(text: string, before: string, key: string, behind: string, rest: string,
                                        out: string, namespace: string, domain: string)
    requires Plain(text) && (text != "" ==> text[|text| - 1] != '{')
    requires Spaces(before) && Word(key) && Spaces(behind) && (key == "podNamespace" || key == "clusterDomain")
    requires FilledIn(rest, out, namespace, domain)
    ensures FilledIn(text + (Placeholder(before, key, behind) + rest),
                     text + (if key == "podNamespace" then namespace else domain) + out, namespace, domain)
  {
    var value := if key == "podNamespace" then namespace else domain;
    FilledInAction(before, key, behind, rest, out, namespace, domain);
    FilledInBehindText(text, Placeholder(before, key, behind) + rest, value + out, namespace, domain);
    assert text + (value + out) == text + value + out;
  }

  ghost predicate BraceFree(s: string) {
    forall i :: 0 <= i < |s| ==> s[i] != '{'
  }

  /** Nothing is left to replace in what was rendered, if no value brings a brace in. */
  lemma {:induction false} RenderedIsPlain(t: Template, parameters: map<string, string>)
    requires WellFormed(t) && Render(t, parameters).Some?
    requires forall k :: k in parameters ==> BraceFree(parameters[k])
    ensures Plain(Render(t, parameters).value)
    ensures KeysIn(Render(t, parameters).value) == []
    ensures Parse(Render(t, parameters).value) == Some(Last(Render(t, parameters).value))
  {
    if t.Then? {
      RenderedIsPlain(t.rest, parameters);
    }
    var s := Render(t, parameters).value;
    assert Plain(s);
    KeysBehindText(s, "");
    FirstOpenBehindText(s, "");
    assert s + "" == s;
  }
}
