/** The slice of gin's request context that the middleware and the base
    handler touch: request headers and path parameters (read only), the
    per-request key store, response headers, the abort flag, and the
    status and JSON body written. Handing control to the next handler is
    recorded by the `proceeded` flag; the downstream handlers themselves
    are not part of this model. */
module Gin {

  import opened Wrappers

  /** A JSON value as gin.H and encoding/json produce it. */
  datatype Json =
    | JNull
    | JBool(b: bool)
    | JInt(i: int)
    | JString(s: string)
    | JList(items: seq<Json>)
    | JObject(fields: map<string, Json>)

  /** A value stored under a context key (Go's `any`). */
  datatype Value = IntValue(i: int) | StringValue(s: string) | OtherValue

  /** gin's GetInt: the stored int, or 0 when the key is unset or holds no int. */
  function IntAt(keys: map<string, Value>, key: string): int {
    if key in keys && keys[key].IntValue? then keys[key].i else 0
  }

  /** gin's GetString: the stored string, or "" when the key is unset or holds no string. */
  function StringAt(keys: map<string, Value>, key: string): string {
    if key in keys && keys[key].StringValue? then keys[key].s else ""
  }

  class Context {
    const requestHeaders: map<string, string>
    const params: map<string, string>
    var keys: map<string, Value>
    var responseHeaders: map<string, string>
    var aborted: bool
    var proceeded: bool
    var status: int
    var body: Option<Json>

    constructor(requestHeaders: map<string, string>, params: map<string, string>)
      ensures this.requestHeaders == requestHeaders && this.params == params
      ensures keys == map[] && responseHeaders == map[]
      ensures !aborted && !proceeded && status == 200 && body == None
    {
      this.requestHeaders := requestHeaders;
      this.params := params;
      keys := map[];
      responseHeaders := map[];
      aborted := false;
      proceeded := false;
      status := 200;
      body := None;
    }

    /** A request header, "" when absent. */
    function GetHeader(key: string): string {
      if key in requestHeaders then requestHeaders[key] else ""
    }

    /** A path parameter, "" when absent. */
    function Param(key: string): string {
      if key in params then params[key] else ""
    }

    function GetInt(key: string): int
      reads this
    {
      IntAt(keys, key)
    }

    function GetString(key: string): string
      reads this
    {
      StringAt(keys, key)
    }

    method Set(key: string, value: Value)
      modifies this
      ensures keys == old(keys)[key := value]
      ensures responseHeaders == old(responseHeaders) && aborted == old(aborted)
      ensures proceeded == old(proceeded) && status == old(status) && body == old(body)
    {
      keys := keys[key := value];
    }

    /** gin's Header: an empty value deletes the response header, any other sets it. */
    method Header(key: string, value: string)
      modifies this
      ensures value == "" ==> responseHeaders == old(responseHeaders) - {key}
      ensures value != "" ==> responseHeaders == old(responseHeaders)[key := value]
      ensures keys == old(keys) && aborted == old(aborted)
      ensures proceeded == old(proceeded) && status == old(status) && body == old(body)
    {
      if value == "" {
        responseHeaders := responseHeaders - {key};
      } else {
        responseHeaders := responseHeaders[key := value];
      }
    }

    /** Hands the request on to the rest of the chain. */
    method Next()
      modifies this
      ensures proceeded
      ensures keys == old(keys) && responseHeaders == old(responseHeaders)
      ensures aborted == old(aborted) && status == old(status) && body == old(body)
    {
      proceeded := true;
    }

    /** Writes the status and a JSON body and stops the chain. */
    method AbortWithStatusJSON(code: int, obj: Json)
      modifies this
      ensures aborted && status == code && body == Some(obj)
      ensures keys == old(keys) && responseHeaders == old(responseHeaders) && proceeded == old(proceeded)
    {
      aborted := true;
      status := code;
      body := Some(obj);
    }

    /** Writes the status and a JSON body without stopping the chain. */
    method JSON(code: int, obj: Json)
      modifies this
      ensures status == code && body == Some(obj)
      ensures keys == old(keys) && responseHeaders == old(responseHeaders)
      ensures aborted == old(aborted) && proceeded == old(proceeded)
    {
      status := code;
      body := Some(obj);
    }

    /** Writes only the status (gin's Status). */
    method Status(code: int)
      modifies this
      ensures status == code
      ensures keys == old(keys) && responseHeaders == old(responseHeaders)
      ensures aborted == old(aborted) && proceeded == old(proceeded) && body == old(body)
    {
      status := code;
    }
  }
}
