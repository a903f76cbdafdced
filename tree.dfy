/**
 * The two trees the typecaster works between: the generic tree XmlSimple
 * produces from a response body (hashes, arrays and attribute strings), and
 * the native values `typecast_value` turns it into. Ruby hashes keep their
 * insertion order, and the library relies on it (`keys.first`,
 * `values.first`), so both kinds of hash are ordered association lists.
 */
module Tree {
  import opened Wrappers

  /** A parsed node: an attribute string, a hash, or an array. */
  datatype Node =
    | Text(text: string)
    | Hash(entries: seq<Entry>)
    | Array(items: seq<Node>)

  datatype Entry = Entry(key: string, val: Node)

  /**
   * A native value. `Time` and `Date` carry the stripped text that
   * `Time.parse` and `Date.parse` would read.
   */
  datatype Value =
    | Nil
    | Int(i: int)
    | Bool(b: bool)
    | Str(s: string)
    | Time(stamp: string)
    | Date(day: string)
    | Mapping(fields: seq<Field>)
    | List(elems: seq<Value>)

  datatype Field = Field(key: string, val: Value)

  /** The exceptions the library raises, each named after what goes wrong. */
  datatype Failure =
    | CannotTypecast(shape: Node)            // raise "can't typecast ..."
    | NoMethod(name: string)                 // NoMethodError or TypeError: a method sent to a value of the wrong class
    | ContentNotText(content: Node)          // gsub sent to a __content__ that is not a string
    | InvalidFilter(given: Value)            // ArgumentError "invalid value for `complete'"
    | RemoteError(message: string, code: string)
    | NotConnected                           // raise 'No connection established'
    | SaveFailed(message: string, code: string)

  // ---------------------------------------------------------------------------
  // Parsed hashes

  function Keys(es: seq<Entry>): (ks: seq<string>)
    ensures |ks| == |es| && forall i :: 0 <= i < |es| ==> ks[i] == es[i].key
  {
    if es == [] then [] else [es[0].key] + Keys(es[1..])
  }

  predicate HasKey(es: seq<Entry>, k: string) {
    exists i :: 0 <= i < |es| && es[i].key == k
  }

  /** `hash[k]`: the value stored under `k`, `None` standing for Ruby's nil. */
  function Lookup(es: seq<Entry>, k: string): (r: Option<Node>)
    ensures r.Some? <==> HasKey(es, k)
    ensures r.Some? ==> exists i :: 0 <= i < |es| && es[i].key == k && es[i].val == r.value
  {
    if es == [] then None
    else if es[0].key == k then Some(es[0].val)
    else Lookup(es[1..], k)
  }

  /** `hash.delete(k)`: the entries under other keys, in their order. */
  function RemoveKey(es: seq<Entry>, k: string): (r: seq<Entry>)
    ensures |r| <= |es|
    ensures !HasKey(r, k)
    ensures HasKey(es, k) ==> |r| < |es|
    ensures forall e :: e in r ==> e in es
  {
    if es == [] then []
    else if es[0].key == k then RemoveKey(es[1..], k)
    else [es[0]] + RemoveKey(es[1..], k)
  }

  predicate DistinctKeys(ks: seq<string>) {
    forall i, j :: 0 <= i < j < |ks| ==> ks[i] != ks[j]
  }

  /** What a Ruby hash guarantees: no key twice, at every level. */
  predicate WellFormed(n: Node) {
    match n
    case Text(_) => true
    case Hash(es) => DistinctKeys(Keys(es)) && forall i :: 0 <= i < |es| ==> WellFormed(es[i].val)
    case Array(xs) => forall i :: 0 <= i < |xs| ==> WellFormed(xs[i])
  }

  // ---------------------------------------------------------------------------
  // Native hashes

  /**
   * The keys of a native hash. `Keys` does the same for a parsed hash; the
   * two entry types differ, and one generic projection would need the key
   * selector as a function argument, which every quantifier over keys in the
   * proofs would then have to see through.
   */
  function FieldKeys(fs: seq<Field>): (ks: seq<string>)
    ensures |ks| == |fs| && forall i :: 0 <= i < |fs| ==> ks[i] == fs[i].key
  {
    if fs == [] then [] else [fs[0].key] + FieldKeys(fs[1..])
  }

  /** `hash[k]` on a native hash. */
  function FieldLookup(fs: seq<Field>, k: string): (r: Option<Value>)
    ensures r.None? <==> forall i :: 0 <= i < |fs| ==> fs[i].key != k
    ensures r.Some? ==> exists i :: 0 <= i < |fs| && fs[i].key == k && fs[i].val == r.value
  {
    if fs == [] then None
    else if fs[0].key == k then Some(fs[0].val)
    else FieldLookup(fs[1..], k)
  }

  predicate WellFormedValue(v: Value)
    decreases v, 1
  {
    && (v.Mapping? ==> WellFormedFields(v.fields))
    && (v.List? ==> forall i :: 0 <= i < |v.elems| ==> WellFormedValue(v.elems[i]))
  }

  /** A well-formed hash: distinct keys and well-formed values. */
  predicate WellFormedFields(fs: seq<Field>)
    decreases fs, 0
  {
    DistinctKeys(FieldKeys(fs)) && forall i :: 0 <= i < |fs| ==> WellFormedValue(fs[i].val)
  }

  lemma GatherWellFormedFields(fs: seq<Field>)
    requires DistinctKeys(FieldKeys(fs))
    requires forall i :: 0 <= i < |fs| ==> WellFormedValue(fs[i].val)
    ensures WellFormedFields(fs)
  {
  }

  lemma MappingWellFormed(fs: seq<Field>)
    requires WellFormedFields(fs)
    ensures WellFormedValue(Mapping(fs))
  {
  }

  /**
   * The shape every typecast value has: no empty hash and no array of fewer
   * than two elements anywhere (those collapse to nil or to their element).
   */
  predicate Collapsed(v: Value) {
    match v
    case Mapping(fs) => |fs| >= 1 && forall i :: 0 <= i < |fs| ==> Collapsed(fs[i].val)
    case List(vs) => |vs| >= 2 && forall i :: 0 <= i < |vs| ==> Collapsed(vs[i])
    case _ => true
  }

  /** Ruby truthiness: only nil and false are false. */
  predicate Truthy(v: Value) {
    !(v.Nil? || v == Bool(false))
  }
}
