/**
 * The non-REST interface: a raw web-service request (`request`), the two
 * wrappers that turn its typecast result into `Record`s (`record` and
 * `records`), and the Content-Type the instance sends (`content_type`).
 * The network is not modelled: the response a request receives is a
 * parameter, its body already parsed by XmlSimple into a `Node`.
 */
module LegacyClient {
  import opened Wrappers
  import opened Tree
  import opened RubyString
  import opened Typecaster
  import opened Sessions
  import opened LegacyPaths
  import Records

  /** A response as the request sees it: the status code as text, the status message, the parsed body. */
  datatype Response = Response(code: string, message: string, body: Node)

  /** What `request` hands the connection: the path, the parameters to encode, the Content-Type header. */
  datatype HttpGet = HttpGet(path: string, params: seq<Field>, contentType: string)

  /** The status check of `request`: the code, read with `to_i`, divided by 100 is 2. */
  predicate StatusOk(code: string) {
    ToI(code) / 100 == 2
  }

  /** The check accepts exactly the codes 200 to 299. */
  lemma StatusOkRange(code: string)
    ensures StatusOk(code) <==> 200 <= ToI(code) < 300
  {
    var n := ToI(code);
    if 200 <= n < 300 {
      assert n == 2 * 100 + (n - 200);
    }
  }

  /** For a code written as an integer the check reads exactly that integer. */
  lemma StatusOfCode(n: int)
    ensures StatusOk(IntToS(n)) <==> 200 <= n < 300
  {
    ToIOfIntToS(n);
    StatusOkRange(IntToS(n));
  }

  /**
   * `request(path, parameters)`: without a connection it raises; a 2xx
   * response has its body typecast; any other raises with the message and
   * the code.
   */
  function Request(conn: Result<Connection, Failure>, response: Response): (r: Result<Value, Failure>)
    ensures conn.Err? ==> r == Err(conn.error)
    ensures conn.Ok? && !(200 <= ToI(response.code) < 300) ==> r == Err(RemoteError(response.message, response.code))
    ensures conn.Ok? && 200 <= ToI(response.code) < 300 ==> r == Typecast(response.body)
    ensures r.Ok? ==> Collapsed(r.value)
  {
    var _ :- conn;
    StatusOkRange(response.code);
    TypecastCollapsed(response.body);
    if StatusOk(response.code) then Typecast(response.body)
    else Err(RemoteError(response.message, response.code))
  }

  /** A request's typecast result keeps the body's keys distinct. */
  lemma RequestWellFormed(conn: Result<Connection, Failure>, response: Response)
    requires WellFormed(response.body)
    ensures Request(conn, response).Ok? ==> WellFormedValue(Request(conn, response).value)
  {
    TypecastWellFormed(response.body);
  }

  /**
   * `value[key]` with a string key: a hash gives the value under the key or
   * nil; a string gives the key when it occurs in it, otherwise nil; any
   * other value cannot be indexed by a string.
   */
  function Index(v: Value, key: string): (r: Result<Value, Failure>)
    ensures r.Err? <==> !(v.Mapping? || v.Str?)
    ensures r.Err? ==> r.error == NoMethod("[]")
    ensures v.Mapping? && key !in FieldKeys(v.fields) ==> r == Ok(Nil)
    ensures v.Str? ==> r == (if Contains(v.s, key) then Ok(Str(key)) else Ok(Nil))
  {
    match v
    case Mapping(fs) =>
      (match FieldLookup(fs, key)
       case Some(x) => Ok(x)
       case None => Ok(Nil))
    case Str(s) => if Contains(s, key) then Ok(Str(key)) else Ok(Nil)
    case _ => Err(NoMethod("[]"))
  }

  /** In a hash with distinct keys, indexing by a field's key gives that field's value. */
  lemma IndexFinds(fs: seq<Field>, i: nat)
    requires DistinctKeys(FieldKeys(fs)) && i < |fs|
    ensures Index(Mapping(fs), fs[i].key) == Ok(fs[i].val)
  {
    Records.FieldLookupAt(fs, i);
    IndexOfLookup(fs, fs[i].key, fs[i].val);
  }

  lemma IndexOfLookup(fs: seq<Field>, k: string, x: Value)
    requires FieldLookup(fs, k) == Some(x)
    ensures Index(Mapping(fs), k) == Ok(x)
  {
  }

  /**
   * The guard and the first key of `record`: a false or empty result gives
   * no record; a non-empty hash gives its first key and value; anything else
   * raises, for lack of `empty?` or of `keys`.
   */
  function SingleRecordShape(result: Value): (r: Result<Option<Field>, Failure>)
    ensures r == Ok(None) <==>
      !Truthy(result) || result == Mapping([]) || result == Str([]) || result == List([])
    ensures r.Ok? && r.value.Some? <==> result.Mapping? && result.fields != []
    ensures r.Ok? && r.value.Some? ==> r.value.value == result.fields[0]
    ensures r.Err? ==> r.error == NoMethod(if result.Str? || result.List? then "keys" else "empty?")
  {
    if !Truthy(result) then Ok(None)
    else match result
      case Mapping(fs) => if fs == [] then Ok(None) else Ok(Some(fs[0]))
      case Str(s) => if s == [] then Ok(None) else Err(NoMethod("keys"))
      case List(vs) => if vs == [] then Ok(None) else Err(NoMethod("keys"))
      case _ => Err(NoMethod("empty?"))
  }

  /** `values.first`: the first value of a hash, nil for an empty one; other values have no `values`. */
  function FirstValue(result: Value): (r: Result<Value, Failure>)
    ensures r.Err? <==> !result.Mapping?
  {
    match result
    case Mapping(fs) => if fs == [] then Ok(Nil) else Ok(fs[0].val)
    case _ => Err(NoMethod("values"))
  }

  /**
   * The rows of `records(node, ...)`: the entry under `node` in the first
   * value of the result; nothing when either is false; an array entry gives
   * its elements, any other entry is a single row.
   */
  function CollectionRows(node: string, result: Value): (r: Result<seq<Value>, Failure>)
    ensures !result.Mapping? ==> r == Err(NoMethod("values"))
    ensures result.Mapping? && FirstValue(result).value.Mapping? && node !in FieldKeys(FirstValue(result).value.fields) ==>
      r == Ok([])
  {
    var first :- FirstValue(result);
    if !Truthy(first) then Ok([])
    else
      var entry :- Index(first, node);
      if !Truthy(entry) then Ok([])
      else if entry.List? then Ok(entry.elems)
      else Ok([entry])
  }

  /** A row of a well-formed result is well-formed. */
  lemma RowsWellFormed(node: string, result: Value)
    requires WellFormedValue(result) && CollectionRows(node, result).Ok?
    ensures forall i :: 0 <= i < |CollectionRows(node, result).value| ==> WellFormedValue(CollectionRows(node, result).value[i])
  {
    var fs := result.fields;
    assert WellFormedFields(fs);
    var first := FirstValue(result).value;
    assert WellFormedValue(first);
    if Truthy(first) && first.Mapping? {
      assert WellFormedFields(first.fields);
      var o := FieldLookup(first.fields, node);
      if o.Some? {
        var i :| 0 <= i < |first.fields| && first.fields[i].key == node && first.fields[i].val == o.value;
        assert WellFormedValue(o.value);
        if o.value.List? {
          assert forall j :: 0 <= j < |o.value.elems| ==> WellFormedValue(o.value.elems[j]);
        }
      }
    }
  }

  /** The record of a well-formed result is built from a well-formed value. */
  lemma RecordWellFormed(result: Value)
    requires WellFormedValue(result) && SingleRecordShape(result).Ok? && SingleRecordShape(result).value.Some?
    ensures WellFormedValue(SingleRecordShape(result).value.value.val)
  {
    assert WellFormedFields(result.fields);
  }

  /** What `record` makes of a request: the key and value its record is built from, if any. */
  function RecordResult(conn: Result<Connection, Failure>, response: Response): Result<Option<Field>, Failure> {
    var v :- Request(conn, response);
    SingleRecordShape(v)
  }

  /** What `records` makes of a request: the rows its records are built from. */
  function RowsResult(conn: Result<Connection, Failure>, node: string, response: Response): Result<seq<Value>, Failure> {
    var v :- Request(conn, response);
    CollectionRows(node, v)
  }

  // ---------------------------------------------------------------------------
  // The documents Basecamp answers with, as XmlSimple parses them with
  // `keeproot` and its default of an array around every element.

  /** Keys the typecaster reads as markers rather than as element names. */
  predicate PlainName(k: string) {
    k != ContentKey && k != "type" && k != "nil"
  }

  /** `<root>...</root>`, whose body is `x`. */
  function SingleDocument(root: string, x: Node): Node {
    Hash([Entry(root, Array([x]))])
  }

  /** `<root type="array"><node>...</node>...</root>`, one `node` element per item of `xs`. */
  function CollectionDocument(root: string, node: string, xs: seq<Node>): Node {
    Hash([Entry(root, Array([Hash([Entry(node, Array(xs)), Entry("type", Text("array"))])]))])
  }

  /** `<root type="array"></root>`. */
  function EmptyCollectionDocument(root: string): Node {
    Hash([Entry(root, Array([Hash([Entry("type", Text("array"))])]))])
  }

  lemma TypecastSingleDocument(root: string, x: Node)
    requires PlainName(root) && Typecast(x).Ok?
    ensures Typecast(SingleDocument(root, x)) == Ok(Mapping([Field(root, Typecast(x).value)]))
  {
    ArrayCollapse([x]);
    SingleEntry(Entry(root, Array([x])));
  }

  /** `record` on a singleton document: one record, tagged with the root element, over its typecast body. */
  lemma RecordOfDocument(c: Connection, code: string, message: string, root: string, x: Node)
    requires 200 <= ToI(code) < 300 && PlainName(root) && Typecast(x).Ok?
    ensures RecordResult(Ok(c), Response(code, message, SingleDocument(root, x))) == Ok(Some(Field(root, Typecast(x).value)))
  {
    TypecastSingleDocument(root, x);
  }

  lemma TypecastArrayOfMany(xs: seq<Node>)
    requires |xs| >= 2 && TypecastEach(xs).Ok?
    ensures Typecast(Array(xs)) == Ok(List(TypecastEach(xs).value))
  {
  }

  lemma TypecastCollectionBody(node: string, xs: seq<Node>)
    requires PlainName(node) && forall i :: 0 <= i < |xs| ==> WellFormed(xs[i])
    requires Typecast(Array(xs)).Ok?
    ensures Typecast(Hash([Entry(node, Array(xs)), Entry("type", Text("array"))]))
         == Ok(Mapping([Field(node, Typecast(Array(xs)).value)]))
  {
    var es := [Entry(node, Array(xs)), Entry("type", Text("array"))];
    assert Keys(es) == [node, "type"];
    assert WellFormed(Hash(es));
    assert Lookup(es, "type") == Some(Text("array"));
    assert !HasKey(es, ContentKey);
    assert Lookup(es, "nil") == None;
    ArrayUnwrap(es);
  }

  lemma TypecastCollectionDocument(root: string, node: string, xs: seq<Node>)
    requires PlainName(root) && PlainName(node) && forall i :: 0 <= i < |xs| ==> WellFormed(xs[i])
    requires Typecast(Array(xs)).Ok?
    ensures Typecast(CollectionDocument(root, node, xs))
         == Ok(Mapping([Field(root, Mapping([Field(node, Typecast(Array(xs)).value)]))]))
  {
    TypecastCollectionBody(node, xs);
    TypecastSingleDocument(root, Hash([Entry(node, Array(xs)), Entry("type", Text("array"))]));
  }

  /** The rows of a result holding one element `node` inside one root element. */
  lemma RowsOfNested(root: string, node: string, e: Value)
    ensures CollectionRows(node, Mapping([Field(root, Mapping([Field(node, e)]))]))
         == if !Truthy(e) then Ok([]) else if e.List? then Ok(e.elems) else Ok([e])
  {
    IndexOfLookup([Field(node, e)], node, e);
  }

  /** A 2xx request is the typecast of its body. */
  lemma RowsOfTypecast(c: Connection, node: string, response: Response)
    requires 200 <= ToI(response.code) < 300 && Typecast(response.body).Ok?
    ensures RowsResult(Ok(c), node, response) == CollectionRows(node, Typecast(response.body).value)
  {
  }

  /**
   * `records` on a collection of two or more elements: one row per element,
   * in document order, each the element's typecast.
   */
  lemma RowsOfCollection(c: Connection, code: string, message: string, root: string, node: string, xs: seq<Node>)
    requires 200 <= ToI(code) < 300 && PlainName(root) && PlainName(node)
    requires |xs| >= 2 && forall i :: 0 <= i < |xs| ==> WellFormed(xs[i]) && Typecast(xs[i]).Ok?
    ensures TypecastEach(xs).Ok?
    ensures RowsResult(Ok(c), node, Response(code, message, CollectionDocument(root, node, xs))) == TypecastEach(xs)
  {
    EachSpec(xs);
    TypecastArrayOfMany(xs);
    TypecastCollectionDocument(root, node, xs);
    var vs := TypecastEach(xs).value;
    RowsOfTypecast(c, node, Response(code, message, CollectionDocument(root, node, xs)));
    RowsOfNested(root, node, List(vs));
  }

  /** `records` on a collection of one element: that element as the only row. */
  lemma RowsOfSingletonCollection(c: Connection, code: string, message: string, root: string, node: string, x: Node)
    requires 200 <= ToI(code) < 300 && PlainName(root) && PlainName(node) && WellFormed(x)
    requires Typecast(x).Ok? && Typecast(x).value.Mapping?
    ensures RowsResult(Ok(c), node, Response(code, message, CollectionDocument(root, node, [x]))) == Ok([Typecast(x).value])
  {
    ArrayCollapse([x]);
    TypecastCollectionDocument(root, node, [x]);
    RowsOfTypecast(c, node, Response(code, message, CollectionDocument(root, node, [x])));
    RowsOfNested(root, node, Typecast(x).value);
  }

  /** `records` on an empty collection: no rows. */
  lemma RowsOfEmptyCollection(c: Connection, code: string, message: string, root: string, node: string)
    requires 200 <= ToI(code) < 300 && PlainName(root)
    ensures RowsResult(Ok(c), node, Response(code, message, EmptyCollectionDocument(root))) == Ok([])
  {
    EmptyTypedTag(Text("array"));
    TypecastSingleDocument(root, Hash([Entry("type", Text("array"))]));
  }

  /** A failed request fails `record` and `records` alike, with the server's message and code. */
  lemma ErrorStatusFails(c: Connection, node: string, response: Response)
    requires !(200 <= ToI(response.code) < 300)
    ensures RecordResult(Ok(c), response) == Err(RemoteError(response.message, response.code))
    ensures RowsResult(Ok(c), node, response) == Err(RemoteError(response.message, response.code))
  {
  }

  // ---------------------------------------------------------------------------
  // The instance

  /** A `Basecamp` instance: the non-REST interface. */
  class Basecamp {
    /** `use_xml`: send parameters as XML rather than YAML. */
    var useXml: bool

    /** `Basecamp.new`: YAML by default. */
    constructor ()
      ensures !useXml
    {
      useXml := false;
    }

    /** `content_type`: the header names the encoding `use_xml` selects, and only that one. */
    function ContentType(): (r: string)
      reads this
      ensures useXml <==> r == "application/xml"
      ensures !useXml <==> r == "application/x-yaml"
    {
      if useXml then "application/xml" else "application/x-yaml"
    }

    /** The `use_xml=` writer. */
    method SetUseXml(b: bool)
      modifies this
      ensures useXml == b
    {
      useXml := b;
    }

    /** The request `request` hands the connection, if there is one. */
    function Sent(session: Session, path: string, params: seq<Field>): Option<HttpGet>
      reads this, session
    {
      if session.connection.Some? then Some(HttpGet(path, params, ContentType())) else None
    }

    /**
     * `record(path, parameters)`: the request it sends, and the record built
     * from the first key and value of the result, or none.
     */
    method FetchRecord(session: Session, path: string, params: seq<Field>, response: Response)
      returns (sent: Option<HttpGet>, r: Result<Option<Records.Record>, Failure>)
      requires WellFormed(response.body)
      ensures sent == Sent(session, path, params)
      ensures var spec := RecordResult(session.GetConnection(), response);
        && (r.Err? <==> spec.Err?)
        && (r.Err? ==> r.error == spec.error)
        && (r.Ok? ==> (r.value.Some? <==> spec.value.Some?))
        && (r.Ok? && r.value.Some? ==>
              && fresh(r.value.value)
              && r.value.value.tag == spec.value.value.key
              && r.value.value.Holds(spec.value.value.val)
              && r.value.value.Valid())
    {
      sent := Sent(session, path, params);
      var res := Request(session.GetConnection(), response);
      if res.Err? {
        r := Err(res.error);
        return;
      }
      RequestWellFormed(session.GetConnection(), response);
      var shape := SingleRecordShape(res.value);
      if shape.Err? {
        r := Err(shape.error);
      } else if shape.value.None? {
        r := Ok(None);
      } else {
        var f := shape.value.value;
        RecordWellFormed(res.value);
        var rec := new Records.Record(f.key, f.val);
        r := Ok(Some(rec));
      }
    }

    /**
     * `records(node, path, parameters)`: the request it sends, and one record
     * per row, tagged `node`, in row order.
     */
    method FetchRecords(session: Session, node: string, path: string, params: seq<Field>, response: Response)
      returns (sent: Option<HttpGet>, r: Result<seq<Records.Record>, Failure>)
      requires WellFormed(response.body)
      ensures sent == Sent(session, path, params)
      ensures var spec := RowsResult(session.GetConnection(), node, response);
        && (r.Err? <==> spec.Err?)
        && (r.Err? ==> r.error == spec.error)
        && (r.Ok? ==> |r.value| == |spec.value|)
        && (r.Ok? ==> forall i :: 0 <= i < |r.value| ==>
              && fresh(r.value[i])
              && r.value[i].tag == node
              && r.value[i].Holds(spec.value[i])
              && r.value[i].Valid())
    {
      sent := Sent(session, path, params);
      var conn := session.GetConnection();
      var res := Request(conn, response);
      if res.Err? {
        r := Err(res.error);
        return;
      }
      RequestWellFormed(conn, response);
      var rows := CollectionRows(node, res.value);
      if rows.Err? {
        r := Err(rows.error);
        return;
      }
      RowsWellFormed(node, res.value);
      var recs := Records.NewRecords(node, rows.value);
      r := Ok(recs);
    }

    /**
     * `create_milestone(project_id, data)`: `create_milestones` with the one
     * milestone, and the first record of its answer.
     */
    method CreateMilestone(session: Session, projectId: int, data: Value, response: Response)
      returns (sent: Option<HttpGet>, r: Result<Option<Records.Record>, Failure>)
      requires WellFormed(response.body)
      ensures var q := CreateMilestones(projectId, [data]);
        sent == Sent(session, q.path, q.params)
      ensures var spec := RowsResult(session.GetConnection(), "milestone", response);
        && (r.Err? <==> spec.Err?)
        && (r.Err? ==> r.error == spec.error)
        && (r.Ok? ==> (r.value.Some? <==> spec.value != []))
        && (r.Ok? && r.value.Some? ==>
              && fresh(r.value.value)
              && r.value.value.tag == "milestone"
              && r.value.value.Holds(spec.value[0])
              && r.value.value.Valid())
    {
      var q := CreateMilestones(projectId, [data]);
      var recs;
      sent, recs := FetchRecords(session, q.node, q.path, q.params, response);
      if recs.Err? {
        r := Err(recs.error);
      } else if recs.value == [] {
        r := Ok(None);
      } else {
        r := Ok(Some(recs.value[0]));
      }
    }
  }
}
