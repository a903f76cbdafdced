/**
 * `typecast_value`: turn the parsed tree of a response into native values,
 * using the `type` and `nil` attributes XmlSimple leaves in the hashes.
 */
module Typecaster {
  import opened Wrappers
  import opened Tree
  import opened RubyString
  import opened Entities

  const ContentKey := "__content__"

  // Sizes, for termination: the array-unwrap case recurses on a hash that is
  // not a sub-term of the input, only a smaller one.
  function Size(n: Node): nat {
    match n
    case Text(_) => 1
    case Hash(es) => 1 + EntriesSize(es)
    case Array(xs) => 1 + NodesSize(xs)
  }

  function EntriesSize(es: seq<Entry>): nat {
    if es == [] then 0 else 1 + Size(es[0].val) + EntriesSize(es[1..])
  }

  function NodesSize(xs: seq<Node>): nat {
    if xs == [] then 0 else 1 + Size(xs[0]) + NodesSize(xs[1..])
  }

  lemma {:induction false} RemoveKeyShrinks(es: seq<Entry>, k: string)
    requires HasKey(es, k)
    ensures EntriesSize(RemoveKey(es, k)) < EntriesSize(es)
  {
    if es[0].key != k {
      RemoveKeyShrinks(es[1..], k);
    } else {
      RemoveKeyNotLarger(es[1..], k);
    }
  }

  lemma {:induction false} RemoveKeyNotLarger(es: seq<Entry>, k: string)
    ensures EntriesSize(RemoveKey(es, k)) <= EntriesSize(es)
  {
    if es != [] {
      RemoveKeyNotLarger(es[1..], k);
    }
  }

  /** The coercion a content node gets from its `type` attribute. */
  function Coerce(content: string, typ: Option<Node>): (v: Value)
    ensures !v.Mapping? && !v.List?
  {
    match typ
    case Some(Text("integer")) => Int(ToI(content))
    case Some(Text("boolean")) => Bool(content == "true")
    case Some(Text("datetime")) => Time(content)
    case Some(Text("date")) => Date(content)
    case _ => Str(content)
  }

  /** The rule of `typecast_value` a hash falls under, tested in the source's order. */
  datatype HashShape =
    | WithContent(content: Node)   // has `__content__`
    | EmptyTyped                   // `keys == ["type"]`
    | NilMarked                    // `nil="true"`
    | TypedArray                   // two keys, one of them `type="array"`
    | Plain                        // any other hash

  function ShapeOf(es: seq<Entry>): HashShape {
    match Lookup(es, ContentKey)
    case Some(c) => WithContent(c)
    case None =>
      if Keys(es) == ["type"] then EmptyTyped
      else if Lookup(es, "nil") == Some(Text("true")) then NilMarked
      else if |es| == 2 && Lookup(es, "type") == Some(Text("array")) then TypedArray
      else Plain
  }

  lemma TypedArrayHasType(es: seq<Entry>)
    requires ShapeOf(es) == TypedArray
    ensures HasKey(es, "type")
  {
  }

  /** `typecast_value`, one branch per case of the source, in the source's order. */
  function Typecast(n: Node): Result<Value, Failure>
    decreases Size(n)
  {
    match n
    case Hash(es) =>
      (match ShapeOf(es)
       case WithContent(Text(raw)) => Ok(Coerce(Strip(TranslateEntities(raw)), Lookup(es, "type")))
       case WithContent(other) => Err(ContentNotText(other))
       case EmptyTyped => Ok(Nil)
       case NilMarked => Ok(Nil)
       case TypedArray =>
         TypedArrayHasType(es);
         RemoveKeyShrinks(es, "type");
         Typecast(Hash(RemoveKey(es, "type")))
       case Plain =>
         if es == [] then Ok(Nil)
         else
           var fs :- TypecastFields(es);
           Ok(Mapping(fs)))
    case Array(xs) =>
      var vs :- TypecastEach(xs);
      Ok(if |vs| == 0 then Nil else if |vs| == 1 then vs[0] else List(vs))
    case Text(_) => Err(CannotTypecast(n))
  }

  /** The `inject` over a hash: typecast every value, keep every key, stop at the first failure. */
  function TypecastFields(es: seq<Entry>): (r: Result<seq<Field>, Failure>)
    ensures r.Ok? ==> |r.value| == |es|
    decreases EntriesSize(es)
  {
    if es == [] then Ok([])
    else
      var v :- Typecast(es[0].val);
      var rest :- TypecastFields(es[1..]);
      Ok([Field(es[0].key, v)] + rest)
  }

  /** The `map!` over an array: typecast every element, stop at the first failure. */
  function TypecastEach(xs: seq<Node>): (r: Result<seq<Value>, Failure>)
    ensures r.Ok? ==> |r.value| == |xs|
    decreases NodesSize(xs)
  {
    if xs == [] then Ok([])
    else
      var v :- Typecast(xs[0]);
      var rest :- TypecastEach(xs[1..]);
      Ok([v] + rest)
  }

  lemma {:induction false} RemoveKeyWellFormed(es: seq<Entry>, k: string)
    requires WellFormed(Hash(es))
    ensures WellFormed(Hash(RemoveKey(es, k)))
  {
    if es != [] {
      assert WellFormed(Hash(es[1..])) by {
        forall i, j | 0 <= i < j < |es[1..]| ensures Keys(es[1..])[i] != Keys(es[1..])[j] {
          assert Keys(es)[i + 1] != Keys(es)[j + 1];
        }
        forall i | 0 <= i < |es[1..]| ensures WellFormed(es[1..][i].val) {
          assert es[1..][i] == es[i + 1];
        }
      }
      RemoveKeyWellFormed(es[1..], k);
      var r := RemoveKey(es[1..], k);
      if es[0].key != k {
        var r' := [es[0]] + r;
        forall i, j | 0 <= i < j < |r'| ensures Keys(r')[i] != Keys(r')[j] {
          if i == 0 {
            assert r'[j] in es[1..];
            var m :| 1 <= m < |es| && es[m] == r'[j];
            assert Keys(es)[0] != Keys(es)[m];
          } else {
            assert Keys(r)[i - 1] != Keys(r)[j - 1];
          }
        }
        forall i | 0 <= i < |r'| ensures WellFormed(r'[i].val) {
          if i > 0 { assert r'[i] == r[i - 1]; }
        }
      }
    }
  }

  lemma {:induction false} EntrySmaller(es: seq<Entry>, i: nat)
    requires i < |es|
    ensures Size(es[i].val) < EntriesSize(es)
  {
    if i > 0 {
      EntrySmaller(es[1..], i - 1);
    }
  }

  lemma {:induction false} ItemSmaller(xs: seq<Node>, i: nat)
    requires i < |xs|
    ensures Size(xs[i]) < NodesSize(xs)
  {
    if i > 0 {
      ItemSmaller(xs[1..], i - 1);
    }
  }

  // ---------------------------------------------------------------------------
  // The element-wise passes

  /** When a hash's values all typecast, field `i` holds the typecast of value `i`. */
  lemma {:induction false} FieldValues(es: seq<Entry>)
    requires TypecastFields(es).Ok?
    ensures forall i :: 0 <= i < |es| ==> Typecast(es[i].val) == Ok(TypecastFields(es).value[i].val)
  {
    if es != [] {
      FieldValues(es[1..]);
      var r := TypecastFields(es);
      forall i | 0 <= i < |es| ensures Typecast(es[i].val) == Ok(r.value[i].val) {
        if i > 0 { assert es[i] == es[1..][i - 1]; }
      }
    }
  }

  /** Typecasting a hash's values keeps its keys, in their order. */
  lemma {:induction false} FieldsKeepKeys(es: seq<Entry>)
    requires TypecastFields(es).Ok?
    ensures FieldKeys(TypecastFields(es).value) == Keys(es)
  {
    if es != [] {
      FieldsKeepKeys(es[1..]);
    }
  }

  /** When typecasting a hash's values fails, the failure is that of the first value that fails. */
  lemma {:induction false} FieldFirstError(es: seq<Entry>)
    requires TypecastFields(es).Err?
    ensures
      exists i :: 0 <= i < |es| && Typecast(es[i].val) == Err(TypecastFields(es).error)
        && forall j :: 0 <= j < i ==> Typecast(es[j].val).Ok?
  {
    var r := TypecastFields(es);
    assert es != [];
    var h := Typecast(es[0].val);
    if h.Err? {
      assert r == Err(h.error);
      assert Typecast(es[0].val) == Err(r.error);
    } else {
      var t := TypecastFields(es[1..]);
      assert t.Err? && r.error == t.error;
      FieldFirstError(es[1..]);
      var i :| 0 <= i < |es[1..]| && Typecast(es[1..][i].val) == Err(t.error)
        && forall j :: 0 <= j < i ==> Typecast(es[1..][j].val).Ok?;
      assert es[i + 1] == es[1..][i];
      forall j | 0 <= j < i + 1 ensures Typecast(es[j].val).Ok? {
        if j > 0 { assert es[j] == es[1..][j - 1]; }
      }
      assert Typecast(es[i + 1].val) == Err(r.error);
    }
  }

  /**
   * Typecasting a hash's values succeeds exactly when every value typecasts;
   * then field `i` holds the typecast of value `i`; otherwise the failure is
   * that of the first value that fails.
   */
  lemma FieldsSpec(es: seq<Entry>)
    ensures TypecastFields(es).Ok? <==> forall i :: 0 <= i < |es| ==> Typecast(es[i].val).Ok?
    ensures TypecastFields(es).Ok? ==>
      forall i :: 0 <= i < |es| ==> Typecast(es[i].val) == Ok(TypecastFields(es).value[i].val)
    ensures TypecastFields(es).Err? ==>
      exists i :: 0 <= i < |es| && Typecast(es[i].val) == Err(TypecastFields(es).error)
        && forall j :: 0 <= j < i ==> Typecast(es[j].val).Ok?
  {
    if TypecastFields(es).Ok? {
      FieldValues(es);
    } else {
      FieldFirstError(es);
    }
  }

  /** When an array's elements all typecast, element `i` of the result is the typecast of element `i`. */
  lemma {:induction false} EachValues(xs: seq<Node>)
    requires TypecastEach(xs).Ok?
    ensures forall i :: 0 <= i < |xs| ==> Typecast(xs[i]) == Ok(TypecastEach(xs).value[i])
  {
    if xs != [] {
      EachValues(xs[1..]);
      var r := TypecastEach(xs);
      forall i | 0 <= i < |xs| ensures Typecast(xs[i]) == Ok(r.value[i]) {
        if i > 0 { assert xs[i] == xs[1..][i - 1]; }
      }
    }
  }

  /** When typecasting an array's elements fails, the failure is that of the first element that fails. */
  lemma {:induction false} EachFirstError(xs: seq<Node>)
    requires TypecastEach(xs).Err?
    ensures
      exists i :: 0 <= i < |xs| && Typecast(xs[i]) == Err(TypecastEach(xs).error)
        && forall j :: 0 <= j < i ==> Typecast(xs[j]).Ok?
  {
    var r := TypecastEach(xs);
    if Typecast(xs[0]).Err? {
      assert Typecast(xs[0]) == Err(r.error);
    } else {
      EachFirstError(xs[1..]);
      var i :| 0 <= i < |xs[1..]| && Typecast(xs[1..][i]) == Err(TypecastEach(xs[1..]).error)
        && forall j :: 0 <= j < i ==> Typecast(xs[1..][j]).Ok?;
      assert Typecast(xs[i + 1]) == Err(r.error);
      forall j | 0 <= j < i + 1 ensures Typecast(xs[j]).Ok? {
        if j > 0 { assert xs[j] == xs[1..][j - 1]; }
      }
    }
  }

  /** The same for the elements of an array. */
  lemma EachSpec(xs: seq<Node>)
    ensures TypecastEach(xs).Ok? <==> forall i :: 0 <= i < |xs| ==> Typecast(xs[i]).Ok?
    ensures TypecastEach(xs).Ok? ==>
      forall i :: 0 <= i < |xs| ==> Typecast(xs[i]) == Ok(TypecastEach(xs).value[i])
    ensures TypecastEach(xs).Err? ==>
      exists i :: 0 <= i < |xs| && Typecast(xs[i]) == Err(TypecastEach(xs).error)
        && forall j :: 0 <= j < i ==> Typecast(xs[j]).Ok?
  {
    if TypecastEach(xs).Ok? {
      EachValues(xs);
    } else {
      EachFirstError(xs);
    }
  }

  // ---------------------------------------------------------------------------
  // The cases of typecast_value

  /**
   * Arrays: every element is typecast first (the first failure propagates),
   * then the result collapses by length: no elements give nil, one gives that
   * element unwrapped, two or more give the list in the original order.
   */
  lemma ArrayCollapse(xs: seq<Node>)
    ensures Typecast(Array(xs)).Err? <==> exists i :: 0 <= i < |xs| && Typecast(xs[i]).Err?
    ensures |xs| == 0 ==> Typecast(Array(xs)) == Ok(Nil)
    ensures |xs| == 1 ==> Typecast(Array(xs)) == Typecast(xs[0])
    ensures |xs| >= 2 && Typecast(Array(xs)).Ok? ==>
      && Typecast(Array(xs)).value.List?
      && |Typecast(Array(xs)).value.elems| == |xs|
      && forall i :: 0 <= i < |xs| ==> Typecast(xs[i]) == Ok(Typecast(Array(xs)).value.elems[i])
  {
    EachSpec(xs);
    if |xs| == 1 && Typecast(xs[0]).Err? {
      assert TypecastEach(xs).Err?;
    }
  }

  /**
   * A hash holding `__content__` wins over every other rule, `nil="true"`
   * included: its text is entity-decoded and stripped, then coerced by the
   * `type` attribute.
   */
  lemma ContentWins(es: seq<Entry>, raw: string)
    requires Lookup(es, ContentKey) == Some(Text(raw))
    ensures Typecast(Hash(es)) == Ok(Coerce(Strip(TranslateEntities(raw)), Lookup(es, "type")))
  {
    assert ShapeOf(es) == WithContent(Text(raw));
  }

  /**
   * The coercions: `integer` reads the text with `to_i`, `boolean` is true
   * exactly for the text "true", `datetime` and `date` keep the text for the
   * parser, and any other or no type leaves the text as it is.
   */
  lemma CoerceSpec(c: string, t: Option<Node>)
    ensures t == Some(Text("integer")) ==> Coerce(c, t) == Int(ToI(c))
    ensures t == Some(Text("boolean")) ==> Coerce(c, t).Bool? && (Coerce(c, t).b <==> c == "true")
    ensures t == Some(Text("datetime")) ==> Coerce(c, t) == Time(c)
    ensures t == Some(Text("date")) ==> Coerce(c, t) == Date(c)
    ensures (t.None? || !t.value.Text? || t.value.text !in ["integer", "boolean", "datetime", "date"])
            ==> Coerce(c, t) == Str(c)
  {
  }

  /** A `__content__` that is not text makes `gsub` fail. */
  lemma ContentMustBeText(es: seq<Entry>)
    requires HasKey(es, ContentKey) && !Lookup(es, ContentKey).value.Text?
    ensures Typecast(Hash(es)) == Err(ContentNotText(Lookup(es, ContentKey).value))
  {
    assert ShapeOf(es) == WithContent(Lookup(es, ContentKey).value);
  }

  /** Whitespace around a printed integer holds no `&`, so entity decoding leaves it alone. */
  lemma PaddedIntegerPlain(n: int, lead: string, trail: string)
    requires forall i :: 0 <= i < |lead| ==> IsSpace(lead[i])
    requires forall i :: 0 <= i < |trail| ==> IsSpace(trail[i])
    ensures '&' !in lead + IntToS(n) + trail
  {
    var d := IntToS(n);
    var raw := lead + d + trail;
    forall i | 0 <= i < |raw| ensures raw[i] != '&' {
      if i < |lead| { assert raw[i] == lead[i]; }
      else if i < |lead| + |d| { assert raw[i] == d[i - |lead|]; IntToSChars(n, i - |lead|); }
      else { assert raw[i] == trail[i - |lead| - |d|]; }
    }
  }

  /** A printed integer with whitespace around it, decoded and stripped, reads back with `to_i`. */
  lemma PaddedIntegerReads(n: int, lead: string, trail: string)
    requires forall i :: 0 <= i < |lead| ==> IsSpace(lead[i])
    requires forall i :: 0 <= i < |trail| ==> IsSpace(trail[i])
    ensures ToI(Strip(TranslateEntities(lead + IntToS(n) + trail))) == n
  {
    PaddedIntegerPlain(n, lead, trail);
    NoAmpersandUnchanged(lead + IntToS(n) + trail);
    IntToSStripped(n);
    StripPadded(lead, IntToS(n), trail);
    ToIOfIntToS(n);
  }

  /** What `hash[k]` gives on an integer content node. */
  lemma IntegerNodeAttributes(raw: string)
    ensures var es := [Entry("type", Text("integer")), Entry(ContentKey, Text(raw))];
      Lookup(es, ContentKey) == Some(Text(raw)) && Lookup(es, "type") == Some(Text("integer"))
  {
    var es := [Entry("type", Text("integer")), Entry(ContentKey, Text(raw))];
    assert es[0].key != ContentKey;
  }

  /** An integer printed with surrounding whitespace reads back as that integer. */
  lemma IntegerContent(n: int, lead: string, trail: string)
    requires forall i :: 0 <= i < |lead| ==> IsSpace(lead[i])
    requires forall i :: 0 <= i < |trail| ==> IsSpace(trail[i])
    ensures Typecast(Hash([Entry("type", Text("integer")), Entry(ContentKey, Text(lead + IntToS(n) + trail))]))
         == Ok(Int(n))
  {
    var raw := lead + IntToS(n) + trail;
    IntegerNodeAttributes(raw);
    ContentWins([Entry("type", Text("integer")), Entry(ContentKey, Text(raw))], raw);
    PaddedIntegerReads(n, lead, trail);
  }

  /** A content node without a type attribute is its decoded, stripped text. */
  lemma UntypedContent(raw: string)
    ensures Typecast(Hash([Entry(ContentKey, Text(raw))])) == Ok(Str(Strip(TranslateEntities(raw))))
  {
    var es := [Entry(ContentKey, Text(raw))];
    assert Lookup(es, ContentKey) == Some(Text(raw));
    assert Lookup(es, "type") == None;
    ContentWins(es, raw);
  }

  /** Escaped, stripped text reads back as the same string when no type is given. */
  lemma TextContent(s: string)
    requires IsStripped(s)
    ensures Typecast(Hash([Entry(ContentKey, Text(Escape(s)))])) == Ok(Str(s))
  {
    UntypedContent(Escape(s));
    DecodeEscaped(s);
    StripStripped(s);
  }

  /** An empty typed tag (a hash whose only key is `type`) is nil, whatever the type. */
  lemma EmptyTypedTag(t: Node)
    ensures Typecast(Hash([Entry("type", t)])) == Ok(Nil)
  {
    var es := [Entry("type", t)];
    assert !HasKey(es, ContentKey);
    assert Keys(es) == ["type"];
    assert ShapeOf(es) == EmptyTyped;
  }

  /** Without content, `nil="true"` makes any hash nil. */
  lemma NilAttribute(es: seq<Entry>)
    requires !HasKey(es, ContentKey) && Lookup(es, "nil") == Some(Text("true"))
    ensures Typecast(Hash(es)) == Ok(Nil)
  {
    assert ShapeOf(es) == EmptyTyped || ShapeOf(es) == NilMarked;
  }

  /**
   * The array-type wrapper: a two-key hash with `type="array"` typecasts as
   * the hash without its `type` key, and that gives a one-key hash holding the
   * typecast of the other value, not the bare value.
   */
  lemma ArrayUnwrap(es: seq<Entry>)
    requires WellFormed(Hash(es))
    requires |es| == 2 && Lookup(es, "type") == Some(Text("array"))
    requires !HasKey(es, ContentKey) && Lookup(es, "nil") != Some(Text("true"))
    ensures Typecast(Hash(es)) == Typecast(Hash(RemoveKey(es, "type")))
    ensures var other := if es[0].key == "type" then es[1] else es[0];
      && RemoveKey(es, "type") == [other]
      && Typecast(Hash(es)) == (match Typecast(other.val)
           case Ok(v) => Ok(Mapping([Field(other.key, v)]))
           case Err(e) => Err(e))
  {
    TypedArrayShape(es);
    UnwrapBranch(es);
    var other := if es[0].key == "type" then es[1] else es[0];
    RemoveTypeOfPair(es);
    assert Lookup([other], "nil") == Lookup(es, "nil") by {
      if other.key == "nil" {
        assert Lookup(es, "nil") == Some(other.val);
      }
    }
    SingleEntry(other);
  }

  lemma TypedArrayShape(es: seq<Entry>)
    requires |es| == 2 && Lookup(es, "type") == Some(Text("array"))
    requires !HasKey(es, ContentKey) && Lookup(es, "nil") != Some(Text("true"))
    ensures ShapeOf(es) == TypedArray
  {
    assert Keys(es) != ["type"];
  }

  lemma UnwrapBranch(es: seq<Entry>)
    requires ShapeOf(es) == TypedArray
    ensures HasKey(es, "type")
    ensures Typecast(Hash(es)) == Typecast(Hash(RemoveKey(es, "type")))
  {
  }

  lemma RemoveTypeOfPair(es: seq<Entry>)
    requires WellFormed(Hash(es))
    requires |es| == 2 && HasKey(es, "type")
    ensures var other := if es[0].key == "type" then es[1] else es[0];
      other.key != "type" && RemoveKey(es, "type") == [other] && other in es
  {
    assert Keys(es)[0] != Keys(es)[1];
    if es[0].key == "type" {
      assert RemoveKey(es[1..], "type") == [es[1]];
    } else {
      assert es[1].key == "type";
      assert RemoveKey(es[1..], "type") == [];
    }
  }

  /** A one-key hash that is not a content, type-only or nil node. */
  lemma SingleEntry(e: Entry)
    requires e.key != ContentKey && e.key != "type"
    requires Lookup([e], "nil") != Some(Text("true"))
    ensures Typecast(Hash([e])) == (match Typecast(e.val)
      case Ok(v) => Ok(Mapping([Field(e.key, v)]))
      case Err(e) => Err(e))
  {
    var es := [e];
    assert !HasKey(es, ContentKey);
    assert Keys(es) != ["type"];
    PlainShape(es);
    GeneralBranch(es);
    assert es[1..] == [];
    assert TypecastFields(es[1..]) == Ok([]);
    match Typecast(e.val)
    case Ok(v) =>
      assert TypecastFields(es) == Ok([Field(e.key, v)] + []);
      assert [Field(e.key, v)] + [] == [Field(e.key, v)];
      assert Typecast(Hash(es)) == Ok(Mapping([Field(e.key, v)]));
    case Err(x) =>
      assert TypecastFields(es) == Err(x);
  }

  /** A hash without content, not type-only, not marked nil and not a typed array is plain. */
  lemma PlainShape(es: seq<Entry>)
    requires !HasKey(es, ContentKey) && Keys(es) != ["type"] && Lookup(es, "nil") != Some(Text("true"))
    requires !(|es| == 2 && Lookup(es, "type") == Some(Text("array")))
    ensures ShapeOf(es) == Plain
  {
  }

  /** What a plain hash gives: nil when empty, otherwise the mapping of its typecast values. */
  lemma GeneralBranch(es: seq<Entry>)
    requires ShapeOf(es) == Plain
    ensures es == [] ==> Typecast(Hash(es)) == Ok(Nil)
    ensures es != [] && TypecastFields(es).Ok? ==> Typecast(Hash(es)) == Ok(Mapping(TypecastFields(es).value))
    ensures es != [] && TypecastFields(es).Err? ==> Typecast(Hash(es)) == Err(TypecastFields(es).error)
  {
  }

  /**
   * Any other hash (see `PlainShape`): empty gives nil; otherwise a hash with exactly the same
   * keys in the same order, each holding the typecast of its value, or the
   * first failure among the values.
   */
  lemma GeneralHash(es: seq<Entry>)
    requires ShapeOf(es) == Plain
    ensures es == [] ==> Typecast(Hash(es)) == Ok(Nil)
    ensures es != [] ==>
      (Typecast(Hash(es)).Ok? <==> forall i :: 0 <= i < |es| ==> Typecast(es[i].val).Ok?)
    ensures es != [] && Typecast(Hash(es)).Ok? ==>
      && Typecast(Hash(es)).value.Mapping?
      && FieldKeys(Typecast(Hash(es)).value.fields) == Keys(es)
      && forall i :: 0 <= i < |es| ==> Typecast(es[i].val) == Ok(Typecast(Hash(es)).value.fields[i].val)
  {
    GeneralBranch(es);
    if es != [] {
      var r := TypecastFields(es);
      if r.Ok? {
        FieldsKeepKeys(es);
        FieldValues(es);
      } else {
        FieldFirstError(es);
      }
    }
  }

  /** Anything that is neither a hash nor an array cannot be typecast. */
  lemma TextCannotTypecast(s: string)
    ensures Typecast(Text(s)) == Err(CannotTypecast(Text(s)))
  {
  }

  lemma ArrayWellFormed(xs: seq<Node>)
    requires forall i :: 0 <= i < |xs| ==> Typecast(xs[i]).Ok? ==> WellFormedValue(Typecast(xs[i]).value)
    ensures Typecast(Array(xs)).Ok? ==> WellFormedValue(Typecast(Array(xs)).value)
  {
    EachSpec(xs);
  }

  lemma FieldKeysDistinct(es: seq<Entry>)
    requires DistinctKeys(Keys(es))
    ensures TypecastFields(es).Ok? ==> DistinctKeys(FieldKeys(TypecastFields(es).value))
  {
    if TypecastFields(es).Ok? {
      FieldsKeepKeys(es);
    }
  }

  lemma {:induction false} FieldWellFormed(es: seq<Entry>, i: nat)
    requires WellFormed(Hash(es)) && TypecastFields(es).Ok? && i < |es|
    ensures WellFormedValue(TypecastFields(es).value[i].val)
    decreases Size(Hash(es)), 0
  {
    FieldsSpec(es);
    assert Typecast(es[i].val) == Ok(TypecastFields(es).value[i].val);
    EntrySmaller(es, i);
    TypecastWellFormed(es[i].val);
  }

  /** Typecasting keeps the keys of every hash distinct. */
  lemma {:induction false} TypecastWellFormed(n: Node)
    requires WellFormed(n)
    ensures Typecast(n).Ok? ==> WellFormedValue(Typecast(n).value)
    decreases Size(n), 1
  {
    match n
    case Text(_) =>
    case Array(xs) =>
      forall i | 0 <= i < |xs| ensures Typecast(xs[i]).Ok? ==> WellFormedValue(Typecast(xs[i]).value) {
        ItemSmaller(xs, i);
        TypecastWellFormed(xs[i]);
      }
      ArrayWellFormed(xs);
    case Hash(es) =>
      match ShapeOf(es)
      case TypedArray =>
        UnwrapBranch(es);
        RemoveKeyShrinks(es, "type");
        RemoveKeyWellFormed(es, "type");
        TypecastWellFormed(Hash(RemoveKey(es, "type")));
      case Plain =>
        GeneralBranch(es);
        var r := TypecastFields(es);
        if es != [] && r.Ok? {
          forall i | 0 <= i < |r.value| ensures WellFormedValue(r.value[i].val) {
            FieldWellFormed(es, i);
          }
          FieldKeysDistinct(es);
          GatherWellFormedFields(r.value);
          MappingWellFormed(r.value);
        }
      case _ =>
  }

  // ---------------------------------------------------------------------------
  // Collapsed results

  lemma {:induction false} FieldCollapsed(es: seq<Entry>, i: nat)
    requires TypecastFields(es).Ok? && i < |es|
    ensures Collapsed(TypecastFields(es).value[i].val)
    decreases Size(Hash(es)), 0
  {
    FieldsSpec(es);
    assert Typecast(es[i].val) == Ok(TypecastFields(es).value[i].val);
    EntrySmaller(es, i);
    TypecastCollapsed(es[i].val);
  }

  lemma {:induction false} ItemCollapsed(xs: seq<Node>, i: nat)
    requires TypecastEach(xs).Ok? && i < |xs|
    ensures Collapsed(TypecastEach(xs).value[i])
    decreases Size(Array(xs)), 0
  {
    EachSpec(xs);
    assert Typecast(xs[i]) == Ok(TypecastEach(xs).value[i]);
    ItemSmaller(xs, i);
    TypecastCollapsed(xs[i]);
  }

  /**
   * No typecast value holds an empty hash or an array of fewer than two
   * elements: those become nil or their only element on the way up.
   */
  lemma {:induction false} TypecastCollapsed(n: Node)
    ensures Typecast(n).Ok? ==> Collapsed(Typecast(n).value)
    decreases Size(n), 1
  {
    match n
    case Text(_) =>
    case Array(xs) =>
      var r := TypecastEach(xs);
      if r.Ok? {
        forall i | 0 <= i < |r.value| ensures Collapsed(r.value[i]) {
          ItemCollapsed(xs, i);
        }
      }
    case Hash(es) =>
      match ShapeOf(es)
      case TypedArray =>
        UnwrapBranch(es);
        RemoveKeyShrinks(es, "type");
        TypecastCollapsed(Hash(RemoveKey(es, "type")));
      case Plain =>
        GeneralBranch(es);
        var r := TypecastFields(es);
        if es != [] && r.Ok? {
          forall i | 0 <= i < |r.value| ensures Collapsed(r.value[i].val) {
            FieldCollapsed(es, i);
          }
        }
      case _ =>
  }
}
