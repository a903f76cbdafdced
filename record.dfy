/**
 * `Basecamp::Record`: a lazily expanding wrapper over one typecast node of a
 * legacy response. Reading a key that holds a hash replaces that hash, in the
 * record's own store, by the child record(s) built from it.
 */
module Records {
  import opened Wrappers
  import opened Tree
  import opened RubyString

  /** `dashify`: Ruby-style names use '_', the wire's keys use '-'. */
  function Dashify(name: string): (r: string)
    ensures |r| == |name| && '_' !in r
    ensures forall i :: 0 <= i < |name| ==> name[i] != '_' ==> r[i] == name[i]
  {
    Tr(name, '_', '-')
  }

  /** Dashifying twice is dashifying once, and names are read the same either way. */
  lemma DashifyIdempotent(name: string)
    ensures Dashify(Dashify(name)) == Dashify(name)
  {
    var d := Dashify(name);
    assert forall i :: 0 <= i < |d| ==> d[i] != '_';
  }

  /** What a record keeps under a key: a raw value, or what reading it expanded to. */
  datatype Slot = Raw(value: Value) | Child(rec: Record) | Children(recs: seq<Record>)

  /** A raw hash, the only kind of slot a read expands. */
  predicate IsRawHash(s: Slot) {
    s.Raw? && s.value.Mapping?
  }

  /** A raw hash read as a collection: exactly one key, whose value is an array. */
  predicate IsCollection(fs: seq<Field>) {
    |fs| == 1 && fs[0].val.List?
  }

  /** The keys of the backing hash of a record over `v`; a non-hash has none. */
  function KeysOf(v: Value): seq<string> {
    if v.Mapping? then FieldKeys(v.fields) else []
  }

  /** The backing store of a fresh record over `v`: every field as a raw slot. */
  function StoreOf(v: Value): (m: map<string, Slot>)
    ensures forall k :: k in m <==> k in KeysOf(v)
  {
    if v.Mapping? then
      map k | k in FieldKeys(v.fields) :: Raw(FieldLookup(v.fields, k).value)
    else map[]
  }

  /** With distinct keys, looking up the key of field `i` finds field `i`. */
  lemma {:induction false} FieldLookupAt(fs: seq<Field>, i: nat)
    requires DistinctKeys(FieldKeys(fs)) && i < |fs|
    ensures FieldLookup(fs, fs[i].key) == Some(fs[i].val)
  {
    if i > 0 {
      assert FieldKeys(fs)[0] != FieldKeys(fs)[i];
      assert DistinctKeys(FieldKeys(fs[1..])) by {
        forall a, b | 0 <= a < b < |fs| - 1 ensures FieldKeys(fs[1..])[a] != FieldKeys(fs[1..])[b] {
          assert FieldKeys(fs)[a + 1] != FieldKeys(fs)[b + 1];
        }
      }
      FieldLookupAt(fs[1..], i - 1);
    }
  }

  /** A fresh record over a hash holds each field's value, raw, under its key. */
  lemma StoreOfField(fs: seq<Field>, i: nat)
    requires DistinctKeys(FieldKeys(fs)) && i < |fs|
    ensures fs[i].key in StoreOf(Mapping(fs)) && StoreOf(Mapping(fs))[fs[i].key] == Raw(fs[i].val)
  {
    FieldLookupAt(fs, i);
    StoreOfKey(fs, i);
  }

  /** A fresh record over a hash holds, under the key of field `i`, what `hash[k]` finds. */
  lemma StoreOfKey(fs: seq<Field>, i: nat)
    requires i < |fs|
    ensures fs[i].key in StoreOf(Mapping(fs)) && StoreOf(Mapping(fs))[fs[i].key] == Raw(FieldLookup(fs, fs[i].key).value)
  {
    assert FieldKeys(fs)[i] == fs[i].key;
  }

  class Record {
    /** The record's type tag: the key it was found under. */
    const tag: string
    /** The keys of the backing hash, in insertion order (`@hash.keys`). */
    var attrs: seq<string>
    /** The backing hash (`@hash`). */
    var hash: map<string, Slot>

    ghost predicate Valid()
      reads this
    {
      && DistinctKeys(attrs)
      && (forall k :: k in hash <==> k in attrs)
      && (forall k :: k in hash && hash[k].Raw? ==> WellFormedValue(hash[k].value))
    }

    /** The record holds `v` as built, before any read expanded it. */
    ghost predicate Holds(v: Value)
      reads this
    {
      attrs == KeysOf(v) && hash == StoreOf(v)
    }

    /**
     * `Record.new(type, hash)`. A value that is not a hash gives a record with
     * no attributes.
     */
    constructor (tag: string, v: Value)
      requires WellFormedValue(v)
      ensures this.tag == tag && Holds(v) && Valid()
    {
      this.tag := tag;
      attrs := KeysOf(v);
      hash := StoreOf(v);
      new;
      if v.Mapping? {
        forall k | k in hash && hash[k].Raw? ensures WellFormedValue(hash[k].value) {
          var i :| 0 <= i < |v.fields| && v.fields[i].key == k && v.fields[i].val == FieldLookup(v.fields, k).value;
        }
      }
    }

    /**
     * `record[name]`: look `name` up with '_' read as '-'. A raw hash is
     * expanded and written back: a hash with one key whose value is an array
     * becomes one child record per element, each tagged with that inner key;
     * any other hash becomes one child record tagged with the looked-up key.
     * Any other value is returned as it is, and an absent key reads as nil.
     * Only the slot read changes, and the set of keys never does.
     */
    method Get(name: string) returns (r: Slot)
      requires Valid()
      modifies this
      ensures Valid() && attrs == old(attrs)
      ensures var k := Dashify(name);
        && (k !in old(hash) ==> r == Raw(Nil) && hash == old(hash))
        && (k in old(hash) ==> hash == old(hash)[k := r] && !IsRawHash(r))
        && (k in old(hash) && !IsRawHash(old(hash)[k]) ==> r == old(hash)[k])
      ensures var k := Dashify(name);
        k in old(hash) && IsRawHash(old(hash)[k]) && IsCollection(old(hash)[k].value.fields) ==>
          var inner := old(hash)[k].value.fields[0];
          && r.Children?
          && |r.recs| == |inner.val.elems|
          && forall i :: 0 <= i < |r.recs| ==>
               fresh(r.recs[i]) && r.recs[i].tag == inner.key && r.recs[i].Holds(inner.val.elems[i]) && r.recs[i].Valid()
      ensures var k := Dashify(name);
        k in old(hash) && IsRawHash(old(hash)[k]) && !IsCollection(old(hash)[k].value.fields) ==>
          && r.Child?
          && fresh(r.rec) && r.rec.tag == k && r.rec.Holds(old(hash)[k].value) && r.rec.Valid()
    {
      var k := Dashify(name);
      if k !in hash {
        return Raw(Nil);
      }
      var stored := hash[k];
      if !IsRawHash(stored) {
        return stored;
      }
      var fs := stored.value.fields;
      if IsCollection(fs) {
        var items := fs[0].val.elems;
        assert WellFormedFields(fs);
        assert WellFormedValue(fs[0].val);
        var recs := NewRecords(fs[0].key, items);
        r := Children(recs);
      } else {
        var child := new Record(k, stored.value);
        r := Child(child);
      }
      hash := hash[k := r];
    }

    /** `id`: the raw value under "id" (no dashifying, no expansion); nil when absent. */
    function Id(): (r: Slot)
      reads this
      ensures "id" in hash ==> r == hash["id"]
      ensures "id" !in hash ==> r == Raw(Nil)
    {
      if "id" in hash then hash["id"] else Raw(Nil)
    }

    /** `attributes`: the keys of the backing hash, each once. */
    function Attributes(): (r: seq<string>)
      reads this
      requires Valid()
      ensures DistinctKeys(r) && forall k :: k in r <==> k in hash
    {
      attrs
    }

    /**
     * `respond_to?(sym)`: true for the record's own methods (`inherited`,
     * the answer of Object#respond_to?) and for every key of the backing hash
     * under its dashified name.
     */
    function RespondTo(sym: string, inherited: bool): (r: bool)
      reads this
      ensures r <==> inherited || Dashify(sym) in hash
    {
      inherited || Dashify(sym) in hash
    }

    /**
     * `method_missing(sym, *args)`: an attribute read when called with no
     * arguments, no block and a key the record has; otherwise NoMethodError.
     */
    method MethodMissing(sym: string, argc: nat, blockGiven: bool) returns (r: Result<Slot, Failure>)
      requires Valid()
      modifies this
      ensures Valid() && attrs == old(attrs) && hash.Keys == old(hash).Keys
      ensures r.Err? <==> (argc != 0 || blockGiven || Dashify(sym) !in old(hash))
      ensures r.Err? ==> r == Err(NoMethod(sym)) && hash == old(hash)
      ensures r.Ok? ==> Dashify(sym) in hash && r.value == hash[Dashify(sym)]
      ensures var k := Dashify(sym);
        r.Ok? ==>
          && hash == old(hash)[k := r.value]
          && !IsRawHash(r.value)
          && (!IsRawHash(old(hash)[k]) ==> r.value == old(hash)[k])
      ensures var k := Dashify(sym);
        r.Ok? && IsRawHash(old(hash)[k]) && IsCollection(old(hash)[k].value.fields) ==>
          var inner := old(hash)[k].value.fields[0];
          && r.value.Children?
          && |r.value.recs| == |inner.val.elems|
          && forall i :: 0 <= i < |r.value.recs| ==>
               && fresh(r.value.recs[i])
               && r.value.recs[i].tag == inner.key
               && r.value.recs[i].Holds(inner.val.elems[i])
               && r.value.recs[i].Valid()
      ensures var k := Dashify(sym);
        r.Ok? && IsRawHash(old(hash)[k]) && !IsCollection(old(hash)[k].value.fields) ==>
          && r.value.Child?
          && fresh(r.value.rec) && r.value.rec.tag == k && r.value.rec.Holds(old(hash)[k].value) && r.value.rec.Valid()
    {
      if argc == 0 && !blockGiven && RespondTo(sym, false) {
        var v := Get(sym);
        r := Ok(v);
      } else {
        r := Err(NoMethod(sym));
      }
    }
  }

  /** `values.map { |v| Record.new(tag, v) }`: one fresh record per value, in order. */
  method NewRecords(tag: string, vs: seq<Value>) returns (recs: seq<Record>)
    requires forall i :: 0 <= i < |vs| ==> WellFormedValue(vs[i])
    ensures |recs| == |vs|
    ensures forall i :: 0 <= i < |recs| ==>
      fresh(recs[i]) && recs[i].tag == tag && recs[i].Holds(vs[i]) && recs[i].Valid()
  {
    recs := [];
    var i := 0;
    while i < |vs|
      invariant 0 <= i <= |vs| && |recs| == i
      invariant forall j :: 0 <= j < i ==>
        fresh(recs[j]) && recs[j].tag == tag && recs[j].Holds(vs[j]) && recs[j].Valid()
    {
      var rec := new Record(tag, vs[i]);
      recs := recs + [rec];
      i := i + 1;
    }
  }

  /**
   * Memoisation as a caller sees it: reading a key, then any other key, then
   * the first key again returns the same slot, the same child records included.
   */
  method ReadTwice(rec: Record, name: string, other: string) returns (first: Slot, again: Slot)
    requires rec.Valid()
    modifies rec
    ensures first == again
    ensures rec.attrs == old(rec.attrs)
  {
    first := rec.Get(name);
    var _ := rec.Get(other);
    again := rec.Get(name);
  }
}
