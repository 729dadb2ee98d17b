/** The DNSClass resource as values, and the keys its search templates use. A Go slice is a value
    of type Slice: nil, or the sequence of its elements. */
module DnsClass {
  import opened GoStrings
  import opened SearchTemplates

  type Slice = Option<seq<string>>

  function Elements(s: Slice): seq<string> {
    if s.Some? then s.value else []
  }

  /** slices.Contains */
  predicate Contains(s: Slice, x: string) {
    x in Elements(s)
  }

  const NONE := "None"
  const CLUSTER_FIRST := "ClusterFirst"
  const CLUSTER_FIRST_WITH_HOST_NET := "ClusterFirstWithHostNet"
  const DEFAULT := "Default"

  const STATE_INIT := "initializing"
  const STATE_READY := "ready"
  const STATE_ERROR := "error"

  const POD_NAMESPACE := "podNamespace"
  const CLUSTER_DOMAIN := "clusterDomain"
  const NAMESERVERS := "nameservers"

  datatype DnsOption = DnsOption(name: string, value: Option<string>)

  datatype DnsConfig = DnsConfig(nameservers: Slice, searches: Slice, options: Option<seq<DnsOption>>)

  datatype Spec = Spec(allowedNamespaces: Slice, disabledNamespaces: Slice, allowedPolicies: Slice,
                       policy: string, config: Option<DnsConfig>)

  datatype Discovered = Discovered(nameservers: Slice, clusterDomain: string)

  /** A condition without its message and transition time. */
  datatype Condition = Condition(kind: string, status: string, reason: string)

  datatype Status = Status(conditions: Option<seq<Condition>>, state: string, discovered: Option<Discovered>)

  datatype Class = Class(name: string, spec: Spec, status: Status)

  // ---------- ExtractTemplateKeysRegex ----------

  function SearchesOf(spec: Spec): seq<string> {
    if spec.config.Some? then Elements(spec.config.value.searches) else []
  }

  function AllKeys(searches: seq<string>): seq<string> {
    if searches == [] then [] else AllKeys(searches[..|searches| - 1]) + KeysIn(searches[|searches| - 1])
  }

  /** The elements in the order of their first occurrence. */
  function FirstOccurrences(s: seq<string>): seq<string> {
    if s == [] then []
    else
      var front := FirstOccurrences(s[..|s| - 1]);
      if s[|s| - 1] in front then front else front + [s[|s| - 1]]
  }

  /** The position at which an element occurs first. */
  function FirstIndex(s: seq<string>, x: string): (i: nat)
    ensures i <= |s|
    ensures i < |s| <==> x in s
    ensures i < |s| ==> s[i] == x
    ensures x !in s[..i]
  {
    if s == [] then 0
    else if s[0] == x then 0
    else
      var i := FirstIndex(s[1..], x);
      assert s[..i + 1] == [s[0]] + s[1..][..i];
      i + 1
  }

  lemma {:induction false} FirstIndexGrows(s: seq<string>, more: seq<string>, x: string)
    ensures x in s ==> FirstIndex(s + more, x) == FirstIndex(s, x)
    ensures x !in s && x in more ==> FirstIndex(s + more, x) == |s| + FirstIndex(more, x)
  {
    if s == [] {
      assert s + more == more;
    } else {
      assert (s + more)[1..] == s[1..] + more;
      FirstIndexGrows(s[1..], more, x);
    }
  }

  /** Each element once, and in the order in which they occur first in s. */
  ghost predicate InOrderOf(r: seq<string>, s: seq<string>) {
    forall i, j :: 0 <= i < j < |r| ==> FirstIndex(s, r[i]) < FirstIndex(s, r[j])
  }

  lemma {:induction false} FirstOccurrencesInOrder(s: seq<string>)
    ensures forall x :: x in FirstOccurrences(s) <==> x in s
    ensures InOrderOf(FirstOccurrences(s), s)
  {
    if s != [] {
      var front, last := s[..|s| - 1], s[|s| - 1];
      var r := FirstOccurrences(front);
      assert s == front + [last];
      FirstOccurrencesInOrder(front);
      forall i | 0 <= i < |r|
        ensures FirstIndex(s, r[i]) == FirstIndex(front, r[i]) < |front|
      {
        assert r[i] in r;
        FirstIndexGrows(front, [last], r[i]);
      }
      if last !in front {
        FirstIndexGrows(front, [last], last);
      }
      assert InOrderOf(r, front);
    }
  }

  /** Keys of the class, as the method below returns them. */
  function TemplateKeys(spec: Spec): seq<string> {
    FirstOccurrences(AllKeys(SearchesOf(spec)))
  }

  lemma OneMoreSearch(searches: seq<string>, i: nat)
    requires i < |searches|
    ensures var before, matches := AllKeys(searches[..i]), KeysIn(searches[i]);
            && before + matches[..0] == before
            && before + matches[..|matches|] == AllKeys(searches[..i + 1])
  {
    assert searches[..i + 1][..i] == searches[..i];
    assert KeysIn(searches[i])[..|KeysIn(searches[i])|] == KeysIn(searches[i]);
  }

  lemma OneMoreKey(before: seq<string>, matches: seq<string>, j: nat)
    requires j < |matches|
    ensures var keys := FirstOccurrences(before + matches[..j]);
            FirstOccurrences(before + matches[..j + 1]) == if matches[j] in keys then keys else keys + [matches[j]]
  {
    assert before + matches[..j + 1] == before + matches[..j] + [matches[j]];
    assert (before + matches[..j + 1])[..|before| + j] == before + matches[..j];
  }

  method ExtractTemplateKeysRegex(spec: Spec) returns (keys: seq<string>)
    ensures keys == TemplateKeys(spec)
  {
    keys := [];
    if spec.config.Some? {
      var searches := Elements(spec.config.value.searches);
      for i := 0 to |searches|
        invariant keys == FirstOccurrences(AllKeys(searches[..i]))
      {
        var matches := KeysIn(searches[i]);
        ghost var before := AllKeys(searches[..i]);
        OneMoreSearch(searches, i);
        for j := 0 to |matches|
          invariant keys == FirstOccurrences(before + matches[..j])
        {
          OneMoreKey(before, matches, j);
          if matches[j] !in keys {
            keys := keys + [matches[j]];
          }
        }
      }
      assert searches[..|searches|] == searches;
    }
  }

  lemma {:induction false} KeyOfSomeSearch(searches: seq<string>, key: string)
    ensures key in AllKeys(searches) <==> exists i :: 0 <= i < |searches| && key in KeysIn(searches[i])
  {
    if searches != [] {
      var front, last := searches[..|searches| - 1], searches[|searches| - 1];
      KeyOfSomeSearch(front, key);
      if i :| 0 <= i < |front| && key in KeysIn(front[i]) {
        assert searches[i] == front[i];
      }
      if i :| 0 <= i < |searches| && key in KeysIn(searches[i]) {
        if i < |front| {
          assert front[i] == searches[i];
        } else {
          assert searches[i] == last;
        }
      }
    }
  }

  function FieldsOf(templates: seq<Template>): seq<string> {
    if templates == [] then []
    else FieldsOf(templates[..|templates| - 1]) + FieldNames(templates[|templates| - 1])
  }

  function PrintAll(templates: seq<Template>): (searches: seq<string>)
    ensures |searches| == |templates|
    ensures forall i :: 0 <= i < |searches| ==> searches[i] == Print(templates[i])
  {
    seq(|templates|, i requires 0 <= i < |templates| => Print(templates[i]))
  }

  lemma {:induction false} AllKeysOfPrinted(templates: seq<Template>)
    requires forall t :: t in templates ==> WellFormed(t)
    ensures AllKeys(PrintAll(templates)) == FieldsOf(templates)
  {
    if templates != [] {
      var front, last := templates[..|templates| - 1], templates[|templates| - 1];
      AllKeysOfPrinted(front);
      assert PrintAll(templates)[..|templates| - 1] == PrintAll(front);
      assert last in templates;
      ExtractionInvertsPrinting(last);
    }
  }

  /** Extraction from printed templates gives the fields they use: all of them, each once, in the
      order of first occurrence. */
  lemma ExtractedKeysAreTheFields(spec: Spec, templates: seq<Template>)
    requires forall t :: t in templates ==> WellFormed(t)
    requires SearchesOf(spec) == PrintAll(templates)
    ensures TemplateKeys(spec) == FirstOccurrences(FieldsOf(templates))
    ensures forall k :: k in TemplateKeys(spec) <==> k in FieldsOf(templates)
    ensures InOrderOf(TemplateKeys(spec), FieldsOf(templates))
  {
    AllKeysOfPrinted(templates);
    FirstOccurrencesInOrder(FieldsOf(templates));
  }
}
