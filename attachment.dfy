/**
 * `Basecamp::Attachment`: a file uploaded to `/upload` ahead of the message
 * or comment that refers to it. Saving assigns the id the server answers
 * with; any answer but "200" raises and leaves the attachment as it was.
 */
module Attachments {
  import opened Wrappers
  import opened Tree
  import opened RubyString
  import opened Sessions
  import opened LegacyClient
  import opened Typecaster

  /** The content type of an attachment made without one. */
  const DefaultContentType: string := "application/octet-stream"

  /** What `save` posts: the path, the file's content as the body, the Content-Type header. */
  datatype HttpPost = HttpPost(path: string, body: string, contentType: string)

  /** The reply to an upload: the status code and message, and the body as `Hash.from_xml` reads it. */
  datatype UploadReply = UploadReply(code: string, message: string, doc: Value)

  /** `['upload']['id']` of the reply's document. */
  function UploadId(doc: Value): (r: Result<Value, Failure>)
    ensures !(doc.Mapping? || doc.Str?) ==> r == Err(NoMethod("[]"))
  {
    var upload :- Index(doc, "upload");
    Index(upload, "id")
  }

  /** The document `<upload><id>...</id></upload>` yields the id it carries. */
  lemma UploadIdOfDocument(id: Value)
    ensures UploadId(Mapping([Field("upload", Mapping([Field("id", id)]))])) == Ok(id)
  {
    IndexOfLookup([Field("upload", Mapping([Field("id", id)]))], "upload", Mapping([Field("id", id)]));
    IndexOfLookup([Field("id", id)], "id", id);
  }

  /** A document without an upload element yields nil, and nil has no `[]`. */
  lemma UploadIdMissing(fs: seq<Field>)
    requires "upload" !in FieldKeys(fs)
    ensures UploadId(Mapping(fs)) == Err(NoMethod("[]"))
  {
  }

  class Attachment {
    var id: Value
    var filename: string
    var content: string
    var contentType: string

    /** `Attachment.new(filename, content, content_type)`: not yet saved, so no id. */
    constructor (filename: string, content: string, contentType: string := DefaultContentType)
      ensures id == Nil
      ensures this.filename == filename && this.content == content && this.contentType == contentType
    {
      id := Nil;
      this.filename := filename;
      this.content := content;
      this.contentType := contentType;
    }

    /** `attributes`: the id under `file`, then the file name and the content type. */
    function Attributes(): (r: seq<Field>)
      reads this
      ensures FieldKeys(r) == ["file", "original_filename", "content_type"]
      ensures r[0].val == id && r[1].val == Str(filename) && r[2].val == Str(contentType)
    {
      [Field("file", id), Field("original_filename", Str(filename)), Field("content_type", Str(contentType))]
    }

    /**
     * `save`: post the content to `/upload`. Only the code "200" counts as
     * saved, and then the id becomes the one in the reply; any other code
     * raises with the reply's message and code. The file itself never changes.
     */
    method Save(session: Session, reply: UploadReply) returns (sent: Option<HttpPost>, r: Result<bool, Failure>)
      modifies this
      ensures filename == old(filename) && content == old(content) && contentType == old(contentType)
      ensures session.connection.None? ==> sent == None && r == Err(NotConnected)
      ensures session.connection.Some? ==> sent == Some(HttpPost("/upload", old(content), old(contentType)))
      ensures session.connection.Some? && reply.code != "200" ==> r == Err(SaveFailed(reply.message, reply.code))
      ensures session.connection.Some? && reply.code == "200" ==>
        && (r.Ok? <==> UploadId(reply.doc).Ok?)
        && (r.Err? ==> r.error == UploadId(reply.doc).error)
      ensures r.Ok? ==> r.value && id == UploadId(reply.doc).value && Attributes()[0].val == id
      ensures r.Err? ==> id == old(id)
    {
      var conn := session.GetConnection();
      if conn.Err? {
        sent, r := None, Err(conn.error);
        return;
      }
      sent := Some(HttpPost("/upload", content, contentType));
      if reply.code == "200" {
        var newId := UploadId(reply.doc);
        if newId.Err? {
          r := Err(newId.error);
          return;
        }
        id := newId.value;
        r := Ok(true);
      } else {
        r := Err(SaveFailed(reply.message, reply.code));
      }
    }
  }

  /** `Attachment.create(filename, content)`: a new attachment, saved at once. */
  method Create(session: Session, filename: string, content: string, reply: UploadReply)
    returns (a: Attachment, sent: Option<HttpPost>, r: Result<bool, Failure>)
    ensures fresh(a)
    ensures a.filename == filename && a.content == content && a.contentType == DefaultContentType
    ensures session.connection.Some? ==> sent == Some(HttpPost("/upload", content, DefaultContentType))
    ensures r.Ok? <==> session.connection.Some? && reply.code == "200" && UploadId(reply.doc).Ok?
    ensures r.Ok? ==> a.id == UploadId(reply.doc).value
    ensures r.Err? ==> a.id == Nil
  {
    a := new Attachment(filename, content);
    sent, r := a.Save(session, reply);
  }

  /**
   * `save` is stricter than `request`: every code an upload accepts passes the
   * status check of the non-REST requests, and some code ("201 Created")
   * passes that check without being accepted by an upload.
   */
  lemma SaveStricterThanRequest(code: string)
    ensures code == "200" ==> StatusOk(code)
    ensures exists c :: StatusOk(c) && c != "200"
  {
    if code == "200" {
      TwoHundredOk('0');
      assert code == ['2', '0', '0'];
    }
    TwoHundredOk('1');
    assert "201" == ['2', '0', '1'];
    assert "201" != "200" by {
      assert "201"[2] != "200"[2];
    }
  }

  /** Every code "20d" passes `request`'s status check. */
  lemma TwoHundredOk(d: char)
    requires IsDigit(d)
    ensures StatusOk(['2', '0', d])
  {
    TwoHundred(d);
    StatusOkRange(['2', '0', d]);
  }

  /**
   * An upload answered with "201 Created" raises and keeps the attachment's
   * id, although the same answer passes `request`'s status check.
   */
  method UploadAnsweredCreated(session: Session, a: Attachment, reply: UploadReply, body: Node)
    returns (r: Result<bool, Failure>)
    requires session.connection.Some? && reply.code == "201"
    modifies a
    ensures r == Err(SaveFailed(reply.message, "201")) && a.id == old(a.id)
    ensures Request(session.GetConnection(), Response(reply.code, reply.message, body)) == Typecast(body)
  {
    var sent;
    sent, r := a.Save(session, reply);
    TwoHundred('1');
    assert reply.code == ['2', '0', '1'];
  }

  /** A three-character code "20d" reads as 200 plus the digit. */
  lemma TwoHundred(d: char)
    requires IsDigit(d)
    ensures ToI(['2', '0', d]) == 200 + DigitValue(d)
  {
    var s := ['2', '0', d];
    assert LStrip(s) == s by {
      assert !IsSpace(s[0]);
    }
    TwoHundredDigits(d);
    var ds := [2, 0, DigitValue(d)];
    assert Horner([2, 0]) == 20 by {
      assert [2, 0][..1] == [2] && [2][..0] == [];
    }
    assert ds[..2] == [2, 0];
    assert Horner(DigitRun(s)) == 200 + DigitValue(d);
  }

  lemma TwoHundredDigits(d: char)
    requires IsDigit(d)
    ensures DigitRun(['2', '0', d]) == [2, 0, DigitValue(d)]
  {
    assert DigitRun([d]) == [DigitValue(d)] by {
      assert [d][1..] == [];
    }
    assert DigitRun(['0', d]) == [0, DigitValue(d)] by {
      assert ['0', d][1..] == [d];
    }
    assert ['2', '0', d][1..] == ['0', d];
  }
}
