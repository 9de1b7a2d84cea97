/** The presigned-URL helper of the Kendra chatbot: it cuts an S3 object URL into
    a bucket name and an object key and asks the S3 client to sign a
    `get_object` request for them that expires after 1000 seconds. The client
    (credentials, signing) is a parameter. */
module PresignedUrl {
  import opened Wrappers
  import opened Strings

  datatype GenerateError =
    | IndexError                 // `split('/')[2]` on a URL with fewer than three pieces
    | ClientError(message: string)   // raised by the S3 client and re-raised unchanged

  /** What is handed to the client's `generate_presigned_url`. */
  datatype PresignRequest = PresignRequest(clientMethod: string, params: map<string, string>, expiresIn: int)

  /** The S3 client's signer: the URL, or the message of the exception it raises
      (every such exception is treated as a `ClientError`). */
  type S3Client = PresignRequest -> Result<string, string>

  /** `s3_url.split('/')[2].split('.')[0]` and `s3_url.split('/')[-1]`. The bucket
      is the third piece cut at its first dot; the key is what follows the last
      slash, so any folder part of the key is dropped. */
  function BucketAndKey(s3Url: string): (r: Result<(string, string), GenerateError>)
    ensures r.Failure? <==> |Split(s3Url, '/')| < 3
    ensures r.Failure? ==> r.error == IndexError
    ensures r.Success? ==>
      var host := Split(s3Url, '/')[2];
      var (bucket, key) := r.value;
      && '/' !in bucket && '.' !in bucket
      && bucket <= host && (bucket == host || host[|bucket|] == '.')
      && '/' !in key
      && |key| < |s3Url| && s3Url[|s3Url| - |key|..] == key && s3Url[|s3Url| - |key| - 1] == '/'
  {
    var pieces := Split(s3Url, '/');
    if |pieces| < 3 then Failure(IndexError)
    else
      var bucket := Split(pieces[2], '.')[0];
      var key := pieces[|pieces| - 1];
      SplitPieces(s3Url, '/');
      SplitPieces(pieces[2], '.');
      FirstPiece(pieces[2], '.');
      LastPiece(s3Url, '/');
      assert forall c :: c in bucket ==> c in pieces[2] by {
        forall c | c in bucket ensures c in pieces[2] {
          var i :| 0 <= i < |bucket| && bucket[i] == c;
          assert pieces[2][i] == c;
        }
      }
      Success((bucket, key))
  }

  /** `https://<authority>` as the scheme, a slash, and a slash before the
      authority. */
  lemma OriginText(authority: string)
    ensures "https://" + authority == "https:" + ['/'] + (['/'] + authority)
  {
    assert "https://" == "https:" + ['/'] + ['/'];
    Regroup("https:", ['/'], ['/'], authority);
  }

  /** The pieces of `https://<authority>` for an authority without slashes. */
  lemma Origin(authority: string)
    requires '/' !in authority
    ensures Split("https://" + authority, '/') == ["https:", "", authority]
  {
    var scheme, tail := "https:", ['/'] + authority;
    assert '/' !in scheme;
    SplitNoSeparator(scheme, '/');
    SplitNoSeparator(authority, '/');
    assert tail == [] + ['/'] + authority;
    SplitAround([], '/', authority);
    OriginText(authority);
    SplitAround(scheme, '/', tail);
  }

  /** The bucket cut from a `<bucket>.<host>` authority. */
  lemma BucketOfAuthority(bucket: string, host: string)
    requires '.' !in bucket
    ensures Split(bucket + "." + host, '.')[0] == bucket
  {
    SplitNoSeparator(bucket, '.');
    assert bucket + "." + host == bucket + ['.'] + host;
    SplitAround(bucket, '.', host);
  }

  /** The virtual-hosted case for a host without slashes. */
  lemma PlainHostUrl(bucket: string, host: string, key: string)
    requires '.' !in bucket && '/' !in bucket && '/' !in host && '/' !in key
    ensures BucketAndKey("https://" + bucket + "." + host + "/" + key) == Success((bucket, key))
  {
    var origin := "https://" + bucket + "." + host;
    assert '/' !in bucket + "." + host;
    assert origin == "https://" + (bucket + "." + host);
    Origin(bucket + "." + host);
    BucketOfAuthority(bucket, host);
    SplitNoSeparator(key, '/');
    assert origin + "/" + key == origin + ['/'] + key;
    SplitAround(origin, '/', key);
    assert Split(origin + "/" + key, '/') == ["https:", "", bucket + "." + host, key];
  }

  /** A virtual-hosted URL `https://<bucket>.<host>/<key>` gives back its bucket
      and key. A `host` that itself contains slashes is the folder case of
      `FolderDropped`, to which the proof reduces it. */
  lemma VirtualHostedUrl(bucket: string, host: string, key: string)
    requires '.' !in bucket && '/' !in bucket && '/' !in key
    ensures BucketAndKey("https://" + bucket + "." + host + "/" + key) == Success((bucket, key))
  {
    if '/' in host {
      SplitAtFirst(host, '/');
      SplitPieces(host, '/');
      var h0 := Split(host, '/')[0];
      var folder := host[|h0| + 1..];
      FolderDropped(bucket, h0, folder, key);
      assert "https://" + bucket + "." + host + "/" + key
          == "https://" + bucket + "." + h0 + "/" + folder + "/" + key;
    } else {
      PlainHostUrl(bucket, host, key);
    }
  }

  /** With a folder in the path, only the last segment survives as the key. */
  lemma FolderDropped(bucket: string, host: string, folder: string, key: string)
    requires '.' !in bucket && '/' !in bucket && '/' !in host && '/' !in key
    ensures BucketAndKey("https://" + bucket + "." + host + "/" + folder + "/" + key) == Success((bucket, key))
  {
    var origin := "https://" + bucket + "." + host;
    var url := origin + "/" + folder + "/" + key;
    assert '/' !in bucket + "." + host;
    assert origin == "https://" + (bucket + "." + host);
    Origin(bucket + "." + host);
    BucketOfAuthority(bucket, host);
    SplitNoSeparator(key, '/');
    assert url == (origin + ['/'] + folder) + ['/'] + key;
    SplitAround(origin + ['/'] + folder, '/', key);
    SplitAround(origin, '/', folder);
    var pieces := Split(url, '/');
    assert pieces == Split(origin, '/') + Split(folder, '/') + [key];
    assert pieces[2] == bucket + "." + host;
    assert pieces[|pieces| - 1] == key;
  }

  /** The request `generate` asks the client to sign: `get_object` on the
      bucket and key of the URL, valid for 1000 seconds. */
  function PresignRequestFor(s3Url: string): (r: Result<PresignRequest, GenerateError>)
    ensures r.Failure? <==> BucketAndKey(s3Url).Failure?
    ensures r.Failure? ==> r.error == IndexError
    ensures r.Success? ==>
      && r.value.clientMethod == "get_object"
      && r.value.params.Keys == {"Bucket", "Key"}
      && r.value.params["Bucket"] == BucketAndKey(s3Url).value.0
      && r.value.params["Key"] == BucketAndKey(s3Url).value.1
      && r.value.expiresIn == 1000
  {
    match BucketAndKey(s3Url)
    case Failure(e) => Failure(e)
    case Success((bucketName, objectKey)) =>
      var clientAction := "get_object";
      Success(PresignRequest(clientAction, map["Bucket" := bucketName, "Key" := objectKey], 1000))
  }

  /** `generate_presigned_url`: the client's URL unchanged, or its `ClientError`
      re-raised. */
  function GeneratePresignedUrl(client: S3Client, clientMethod: string, methodParameters: map<string, string>, expiresIn: int)
    : (r: Result<string, GenerateError>)
    ensures var signed := client(PresignRequest(clientMethod, methodParameters, expiresIn));
      && (signed.Success? <==> r.Success?)
      && (signed.Success? ==> r.value == signed.value)
      && (signed.Failure? ==> r.error == ClientError(signed.error))
  {
    match client(PresignRequest(clientMethod, methodParameters, expiresIn))
    case Success(url) => Success(url)
    case Failure(message) => Failure(ClientError(message))
  }

  /** `generate`: an `IndexError` exactly for URLs with fewer than three
      slash-separated pieces; otherwise the client's answer to the fixed
      request, passed through. */
  function Generate(client: S3Client, s3Url: string): (r: Result<string, GenerateError>)
    ensures r == Failure(IndexError) <==> |Split(s3Url, '/')| < 3
    ensures PresignRequestFor(s3Url).Success? ==>
      var signed := client(PresignRequestFor(s3Url).value);
      && (signed.Success? ==> r == Success(signed.value))
      && (signed.Failure? ==> r == Failure(ClientError(signed.error)))
  {
    match BucketAndKey(s3Url)
    case Failure(e) => Failure(e)
    case Success((bucketName, objectKey)) =>
      GeneratePresignedUrl(client, "get_object", map["Bucket" := bucketName, "Key" := objectKey], 1000)
  }
}
