/** What a parsed request says, and why one is refused (include/erikslund/http/request.hpp, method.hpp). */
module Messages {
  import opened Text

  datatype Method = Get | Head | Post | Put | Patch | Delete | Options

  datatype ParseError =
    | NeedsMoreData
    | MalformedRequestLine
    | UnsupportedVersion
    | UnknownMethod
    | TooManyHeaders
    | MalformedHeader
    | MissingHost
    | MalformedHost
    | TargetTooLong
    | BadPercentEncoding
    | UnsupportedTransferEncoding
    | BodyTooLarge

  datatype Request = Request(
    verb: Method, target: string, path: string, query: string, authority: string,
    headers: seq<(string, string)>, parameters: seq<(string, string)>, keepAlive: bool, body: string)

  function MethodFromToken(token: string): Option<Method> {
    if token == "GET" then Some(Get)
    else if token == "HEAD" then Some(Method.Head)
    else if token == "POST" then Some(Post)
    else if token == "PUT" then Some(Put)
    else if token == "PATCH" then Some(Patch)
    else if token == "DELETE" then Some(Delete)
    else if token == "OPTIONS" then Some(Options)
    else None
  }
}
