/** The tail of the Kendra-backed conversational Lambda: after the retrieval
    chain has answered, each source document it returned is projected to a
    `{title, source}` record, in order, and the answer and those records are
    returned with status 200 and wildcard CORS headers. The chain result is an
    input; metadata lookups that Python would answer with `KeyError` are
    modelled as the error path. */
module LangchainMemory {
  import opened Wrappers
  import opened Http

  /** The part of a retrieved document's metadata the handler reads; a key the
      dictionary does not hold is `None`. */
  datatype Metadata = Metadata(
    title: Option<string>,
    source: Option<string>,
    documentAttributes: Option<map<string, string>>)

  datatype Document = Document(metadata: Metadata)

  /** The chain's result dictionary: `answer`, and `source_documents` when present. */
  datatype ChainResult = ChainResult(answer: string, sourceDocuments: Option<seq<Document>>)

  datatype SourceDocument = SourceDocument(title: string, source: string)

  /** The response body: a dictionary, not a JSON text. */
  datatype Completion = Completion(answer: string, sourceDocuments: seq<SourceDocument>)

  datatype HandlerError = KeyError(key: string)

  /** Python truthiness of a string. */
  predicate Truthy(s: string)
  {
    s != ""
  }

  /** The record one document contributes, or the first key Python finds
      missing, in the order the loop body looks them up. Both branches on
      `s3_document_id` store the same `source`, so its value never matters. */
  function ProjectDocument(d: Document): (r: Result<SourceDocument, HandlerError>)
    ensures d.metadata.title.None? ==> r == Failure(KeyError("title"))
    ensures d.metadata.title.Some? && d.metadata.documentAttributes.None? ==>
      r == Failure(KeyError("document_attributes"))
    ensures (d.metadata.title.Some? && d.metadata.documentAttributes.Some?
             && "s3_document_id" !in d.metadata.documentAttributes.value) ==>
      r == Failure(KeyError("s3_document_id"))
    ensures r.Success? <==>
      && d.metadata.title.Some? && d.metadata.source.Some? && d.metadata.documentAttributes.Some?
      && "s3_document_id" in d.metadata.documentAttributes.value
    ensures r.Success? ==> r.value == SourceDocument(d.metadata.title.value, d.metadata.source.value)
    ensures (d.metadata.title.Some? && d.metadata.documentAttributes.Some?
             && "s3_document_id" in d.metadata.documentAttributes.value && d.metadata.source.None?) ==>
      r == Failure(KeyError("source"))
  {
    var m := d.metadata;
    if m.title.None? then Failure(KeyError("title"))
    else if m.documentAttributes.None? then Failure(KeyError("document_attributes"))
    else if "s3_document_id" !in m.documentAttributes.value then Failure(KeyError("s3_document_id"))
    else if m.source.None? then Failure(KeyError("source"))
    else if Truthy(m.documentAttributes.value["s3_document_id"]) then Success(SourceDocument(m.title.value, m.source.value))
    else Success(SourceDocument(m.title.value, m.source.value))
  }

  /** `out` holds one record per document, each its document's projection, in order. */
  ghost predicate Projects(docs: seq<Document>, out: seq<SourceDocument>)
  {
    && |out| == |docs|
    && forall i :: 0 <= i < |docs| ==> ProjectDocument(docs[i]) == Success(out[i])
  }

  /** Document `j` is the first whose projection fails, and it fails with `e`. */
  ghost predicate FailsFirstAt(docs: seq<Document>, j: int, e: HandlerError)
  {
    && 0 <= j < |docs|
    && (forall i :: 0 <= i < j ==> ProjectDocument(docs[i]).Success?)
    && ProjectDocument(docs[j]) == Failure(e)
  }

  /** The `source_documents` loop: empty when the key is absent, otherwise one
      record per document in order, or the `KeyError` of the first document
      whose metadata lacks a key. */
  method CollectSourceDocuments(result: ChainResult) returns (r: Result<seq<SourceDocument>, HandlerError>)
    ensures result.sourceDocuments.None? ==> r == Success([])
    ensures result.sourceDocuments.Some? ==>
      var docs := result.sourceDocuments.value;
      && (r.Success? <==> forall i :: 0 <= i < |docs| ==> ProjectDocument(docs[i]).Success?)
      && (r.Success? ==> Projects(docs, r.value))
      && (r.Failure? ==> exists j :: FailsFirstAt(docs, j, r.error))
  {
    var sourceDocuments: seq<SourceDocument> := [];
    if result.sourceDocuments.Some? {
      var docs := result.sourceDocuments.value;
      var i := 0;
      while i < |docs|
        invariant 0 <= i <= |docs|
        invariant |sourceDocuments| == i
        invariant forall k :: 0 <= k < i ==> ProjectDocument(docs[k]) == Success(sourceDocuments[k])
      {
        var m := docs[i].metadata;
        if m.title.None? {
          assert FailsFirstAt(docs, i, KeyError("title"));
          return Failure(KeyError("title"));
        }
        var title := m.title.value;
        if m.documentAttributes.None? {
          assert FailsFirstAt(docs, i, KeyError("document_attributes"));
          return Failure(KeyError("document_attributes"));
        }
        if "s3_document_id" !in m.documentAttributes.value {
          assert FailsFirstAt(docs, i, KeyError("s3_document_id"));
          return Failure(KeyError("s3_document_id"));
        }
        if m.source.None? {
          assert FailsFirstAt(docs, i, KeyError("source"));
          return Failure(KeyError("source"));
        }
        var source: string;
        if Truthy(m.documentAttributes.value["s3_document_id"]) {
          source := m.source.value;
        } else {
          source := m.source.value;
        }
        sourceDocuments := sourceDocuments + [SourceDocument(title, source)];
        i := i + 1;
      }
    }
    r := Success(sourceDocuments);
  }

  /** `lambda_handler` after the chain call: the completion pairs the chain's
      answer with the collected source documents and is itself the body of a
      status-200 response with wildcard CORS headers. */
  method LambdaHandler(result: ChainResult) returns (r: Result<Response<Completion>, HandlerError>)
    ensures result.sourceDocuments.None? ==>
      r.Success? && IsCorsOk(r.value) && r.value.body == Completion(result.answer, [])
    ensures result.sourceDocuments.Some? ==>
      var docs := result.sourceDocuments.value;
      && (r.Success? <==> forall i :: 0 <= i < |docs| ==> ProjectDocument(docs[i]).Success?)
      && (r.Success? ==>
            && IsCorsOk(r.value)
            && r.value.body.answer == result.answer
            && Projects(docs, r.value.body.sourceDocuments))
      && (r.Failure? ==> exists j :: FailsFirstAt(docs, j, r.error))
  {
    var sourceDocuments := CollectSourceDocuments(result);
    if sourceDocuments.Failure? {
      return Failure(sourceDocuments.error);
    }
    var completion := Completion(result.answer, sourceDocuments.value);
    r := Success(Response(
      200,
      map["Access-Control-Allow-Origin" := "*", "Access-Control-Allow-Headers" := "*"],
      completion));
  }
}
