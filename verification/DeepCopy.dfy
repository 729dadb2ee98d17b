/** DNSClass objects on the heap and their deep copies. Structs are values that may hold pointers;
    slices are arrays that may be nil. */
module DeepCopy {
  import opened GoStrings
  import opened DnsClass

  function ViewSlice<T>(a: array?<T>): Option<seq<T>>
    reads a
  {
    if a == null then None else Some(a[..])
  }

  /** corev1.PodDNSConfig */
  class PodDnsConfig {
    var nameservers: array?<string>
    var searches: array?<string>
    var options: array?<DnsOption>

    constructor (nameservers: array?<string>, searches: array?<string>, options: array?<DnsOption>)
      ensures this.nameservers == nameservers && this.searches == searches && this.options == options
    {
      this.nameservers, this.searches, this.options := nameservers, searches, options;
    }

    ghost function Arrays(): set<object?>
      reads this
    {
      {nameservers, searches, options}
    }

    function View(): DnsConfig
      reads this, Arrays()
    {
      DnsConfig(ViewSlice(nameservers), ViewSlice(searches), ViewSlice(options))
    }
  }

  class DiscoveredFields {
    var nameservers: array?<string>
    var clusterDomain: string

    constructor (nameservers: array?<string>, clusterDomain: string)
      ensures this.nameservers == nameservers && this.clusterDomain == clusterDomain
    {
      this.nameservers, this.clusterDomain := nameservers, clusterDomain;
    }

    function View(): Discovered
      reads this, nameservers
    {
      Discovered(ViewSlice(nameservers), clusterDomain)
    }
  }

  datatype SpecStruct = SpecStruct(allowedNamespaces: array?<string>, disabledNamespaces: array?<string>,
                                   allowedPolicies: array?<string>, policy: string, config: PodDnsConfig?)
  {
    /** Everything that can be changed through this struct. */
    ghost function Footprint(): set<object?>
      reads config
    {
      {allowedNamespaces, disabledNamespaces, allowedPolicies, config}
      + if config == null then {} else config.Arrays()
    }

    function View(): Spec
      reads Footprint()
    {
      Spec(ViewSlice(allowedNamespaces), ViewSlice(disabledNamespaces), ViewSlice(allowedPolicies), policy,
           if config == null then None else Some(config.View()))
    }
  }

  datatype StatusStruct = StatusStruct(conditions: array?<Condition>, state: string, discovered: DiscoveredFields?)
  {
    ghost function Footprint(): set<object?>
      reads discovered
    {
      {conditions, discovered} + if discovered == null then {} else {discovered.nameservers}
    }

    function View(): Status
      reads Footprint()
    {
      Status(ViewSlice(conditions), state, if discovered == null then None else Some(discovered.View()))
    }
  }

  datatype ClassStruct = ClassStruct(name: string, spec: SpecStruct, status: StatusStruct)
  {
    ghost function Footprint(): set<object?>
      reads spec.config, status.discovered
    {
      spec.Footprint() + status.Footprint()
    }

    function View(): Class
      reads Footprint()
    {
      Class(name, spec.View(), status.View())
    }
  }

  // ---------- the generated copies ----------

  /** make and copy, unless nil. */
  method CopySlice<T>(a: array?<T>) returns (b: array?<T>)
    ensures b != null ==> fresh(b)
    ensures ViewSlice(b) == ViewSlice(a)
  {
    if a == null {
      return null;
    }
    b := new T[a.Length](i requires 0 <= i < a.Length reads a => a[i]);
    assert b[..] == a[..];
  }

  method CopyConfig(config: PodDnsConfig) returns (out: PodDnsConfig)
    ensures fresh(out) && forall o :: o in out.Arrays() && o != null ==> fresh(o)
    ensures out.View() == config.View()
  {
    var nameservers := CopySlice(config.nameservers);
    var searches := CopySlice(config.searches);
    var options := CopySlice(config.options);
    out := new PodDnsConfig(nameservers, searches, options);
  }

  method CopyDiscovered(fields: DiscoveredFields) returns (out: DiscoveredFields)
    ensures fresh(out) && (out.nameservers != null ==> fresh(out.nameservers))
    ensures out.View() == fields.View()
  {
    var nameservers := CopySlice(fields.nameservers);
    out := new DiscoveredFields(nameservers, fields.clusterDomain);
  }

  method CopySpec(spec: SpecStruct) returns (out: SpecStruct)
    ensures forall o :: o in out.Footprint() && o != null ==> fresh(o)
    ensures out.View() == spec.View()
  {
    out := spec;
    var allowedNamespaces := CopySlice(spec.allowedNamespaces);
    out := out.(allowedNamespaces := allowedNamespaces);
    var disabledNamespaces := CopySlice(spec.disabledNamespaces);
    out := out.(disabledNamespaces := disabledNamespaces);
    var allowedPolicies := CopySlice(spec.allowedPolicies);
    out := out.(allowedPolicies := allowedPolicies);
    if spec.config != null {
      var config := CopyConfig(spec.config);
      out := out.(config := config);
    }
  }

  method CopyStatus(status: StatusStruct) returns (out: StatusStruct)
    ensures forall o :: o in out.Footprint() && o != null ==> fresh(o)
    ensures out.View() == status.View()
  {
    var conditions := CopySlice(status.conditions);
    out := status.(conditions := conditions);
    if status.discovered != null {
      var discovered := CopyDiscovered(status.discovered);
      out := out.(discovered := discovered);
    }
  }

  method CopyClass(c: ClassStruct) returns (out: ClassStruct)
    ensures forall o :: o in out.Footprint() && o != null ==> fresh(o)
    ensures out.View() == c.View()
  {
    var spec := CopySpec(c.spec);
    var status := CopyStatus(c.status);
    out := ClassStruct(c.name, spec, status);
  }

  /** A struct that shows this class and reaches no object outside the given set. */
  ghost predicate Shows(c: ClassStruct, view: Class, reach: set<object?>)
    reads c.Footprint()
  {
    c.Footprint() <= reach && c.View() == view
  }

  ghost predicate ShowAll(items: seq<ClassStruct>, views: seq<Class>, reach: set<object?>)
    reads set i, o | 0 <= i < |items| && o in items[i].Footprint() :: o
  {
    |items| == |views| && forall i :: 0 <= i < |items| ==> Shows(items[i], views[i], reach)
  }

  lemma OneMoreShown(items: seq<ClassStruct>, views: seq<Class>, reach: set<object?>, c: ClassStruct, view: Class)
    requires ShowAll(items, views, reach) && c.View() == view
    ensures ShowAll(items + [c], views + [view], reach + c.Footprint())
  {
    forall i | 0 <= i < |items|
      ensures Shows(items[i], views[i], reach + c.Footprint())
    {
      assert Shows(items[i], views[i], reach);
    }
  }

  lemma OneMoreOf<T>(s: seq<T>, k: nat)
    requires k < |s|
    ensures s[..k] + [s[k]] == s[..k + 1]
  {
  }

  /** One item more: the copies made so far stay what they are. */
  method CopyOneMore(c: ClassStruct, done: seq<ClassStruct>, ghost views: seq<Class>, ghost created: set<object?>)
    returns (copy: ClassStruct)
    requires ShowAll(done, views, created)
    ensures forall o :: o in copy.Footprint() && o != null ==> fresh(o)
    ensures ShowAll(done + [copy], views + [c.View()], created + copy.Footprint())
  {
    copy := CopyClass(c);
    forall i | 0 <= i < |done|
      ensures Shows(done[i], views[i], created)
    {
      assert old(Shows(done[i], views[i], created));
    }
    OneMoreShown(done, views, created, copy, c.View());
  }

  /** The items of a list: the copies show what the originals show and reach only new objects. */
  method CopyList(items: seq<ClassStruct>, ghost views: seq<Class>, ghost reach: set<object?>)
    returns (out: seq<ClassStruct>, ghost created: set<object?>)
    requires ShowAll(items, views, reach)
    ensures ShowAll(out, views, created)
    ensures forall o :: o in created && o != null ==> fresh(o)
  {
    out, created := [], {};
    for k := 0 to |items|
      invariant ShowAll(out, views[..k], created)
      invariant ShowAll(items, views, reach)
      invariant forall o :: o in created && o != null ==> fresh(o)
    {
      assert Shows(items[k], views[k], reach);
      var c := CopyOneMore(items[k], out, views[..k], created);
      OneMoreOf(views, k);
      created := created + c.Footprint();
      out := out + [c];
    }
    assert views[..|items|] == views;
  }
}
