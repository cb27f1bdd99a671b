/**
 * The request serializer of the logger: it copies `url`, `method` and
 * `headers`, and adds `params`, `query` and `body` only when `isEmptyObject`
 * holds of them, so only an empty one is ever logged.
 */
module ReqSerializer {
  import opened Wrappers
  import opened Json

  /** The parts of an Express request the serializer reads; `None` is `undefined`. */
  datatype Request = Request(
    url: string,
    httpMethod: string,
    headers: map<string, Json>,
    params: Option<Json>,
    query: Option<Json>,
    body: Option<Json>)

  /** None of the optional parts is `null`, which `isEmptyObject` cannot take. */
  predicate NoNullParts(req: Request) {
    req.params != Some(JNull) && req.query != Some(JNull) && req.body != Some(JNull)
  }

  /** The keys a log record can hold. */
  datatype LogKey = Url | Method | Headers | Params | Query | Body

  /** The key as it is written in the log record. */
  function LogKeyName(k: LogKey): string {
    match k
    case Url => "url"
    case Method => "method"
    case Headers => "headers"
    case Params => "params"
    case Query => "query"
    case Body => "body"
  }

  /** Distinct keys are written as distinct names. */
  lemma LogKeyNamesDistinct(j: LogKey, k: LogKey)
    requires j != k
    ensures LogKeyName(j) != LogKeyName(k)
  {
  }

  /** A log record: a JSON object over the six keys. */
  type LogRecord = map<LogKey, Json>

  /**
   * `reqSerializer`: the log record of a request. It always holds the url,
   * the method and the headers, and holds each of params, query and body
   * exactly when `isEmptyObject` holds of it.
   */
  function Serialize(req: Request): (out: LogRecord)
    requires NoNullParts(req)
    ensures Url in out && out[Url] == JStr(req.url)
    ensures Method in out && out[Method] == JStr(req.httpMethod)
    ensures Headers in out && out[Headers] == JObject(req.headers)
    ensures Params in out <==> IsEmptyObject(req.params)
    ensures Query in out <==> IsEmptyObject(req.query)
    ensures Body in out <==> IsEmptyObject(req.body)
    ensures Params in out ==> out[Params] == req.params.value
    ensures Query in out ==> out[Query] == req.query.value
    ensures Body in out ==> out[Body] == req.body.value
  {
    // each conditional spread `...(cond && { key: v })` adds the key only when `cond` holds
    var copied := map[Url := JStr(req.url), Method := JStr(req.httpMethod), Headers := JObject(req.headers)];
    var withParams := if IsEmptyObject(req.params) then copied[Params := req.params.value] else copied;
    var withQuery := if IsEmptyObject(req.query) then withParams[Query := req.query.value] else withParams;
    if IsEmptyObject(req.body) then withQuery[Body := req.body.value] else withQuery
  }

  /**
   * Parameters, query and body that are objects are logged only when they are
   * empty; one that is undefined is never logged.
   */
  lemma OnlyEmptyPartsLogged(req: Request)
    requires NoNullParts(req)
    ensures req.params.Some? && req.params.value.JObject? ==>
              (Params in Serialize(req) <==> req.params.value.fields == map[])
    ensures req.query.Some? && req.query.value.JObject? ==>
              (Query in Serialize(req) <==> req.query.value.fields == map[])
    ensures req.body.Some? && req.body.value.JObject? ==>
              (Body in Serialize(req) <==> req.body.value.fields == map[])
    ensures req.params.None? ==> Params !in Serialize(req)
    ensures req.query.None? ==> Query !in Serialize(req)
    ensures req.body.None? ==> Body !in Serialize(req)
  {
  }
}
