/** Compiling Gateway API hostnames and matches into OCI routing conditions, and what the compiled text means
    when it is read back with the splitter. */
module ConditionCompiler {
  import opened Text
  import opened ConditionText
  import RegexFragment
  import RoutingRules

  datatype Error = UnsupportedMatch | MissingPathValue | EmptyMethodMatch

  datatype Result<+T> = Ok(value: T) | Err(error: Error)

  datatype PathType = ExactPath | PathPrefix | RegexPath | UnknownPath

  datatype PathMatch = PathMatch(matchType: Option<PathType>, value: Option<string>)

  datatype HeaderType = ExactHeader | RegexHeader | UnknownHeader

  datatype HeaderMatch = HeaderMatch(matchType: Option<HeaderType>, name: string, value: string)

  datatype HTTPRouteMatch = HTTPRouteMatch(
    path: Option<PathMatch>, headers: seq<HeaderMatch>, queryParams: seq<string>, httpMethod: Option<string>)

  datatype MethodType = ExactMethod | OtherMethod

  datatype GRPCMethodMatch = GRPCMethodMatch(
    matchType: Option<MethodType>, service: Option<string>, rpcMethod: Option<string>)

  datatype GRPCRouteMatch = GRPCRouteMatch(rpc: Option<GRPCMethodMatch>, headers: seq<HeaderMatch>)

  // ----- single conditions

  predicate ValidLiteral(value: string) {
    forall i :: 0 <= i < |value| ==> RegexFragment.IsConditionLiteralByte(value[i])
  }

  function PathCondition(operator: string, value: string): string {
    "http.request.url.path " + operator + " '" + value + "'"
  }

  function HeaderCondition(name: string, selector: string, operator: string, value: string): string {
    "http.request.headers[(i '" + name + "')]" + selector + " " + operator + " (i '" + value + "')"
  }

  function MapPathMatch(path: PathMatch): Result<string> {
    if path.value.None? then Err(MissingPathValue)
    else
      var value := path.value.value;
      match (if path.matchType.None? then PathPrefix else path.matchType.value)
      case ExactPath => if ValidLiteral(value) then Ok(PathCondition("eq", value)) else Err(UnsupportedMatch)
      case PathPrefix => if ValidLiteral(value) then Ok(PathCondition("sw", value)) else Err(UnsupportedMatch)
      case RegexPath => Err(UnsupportedMatch)
      case UnknownPath => Err(UnsupportedMatch)
  }

  function MapRegexHeader(name: string, pattern: string): Result<string> {
    if !ValidLiteral(name) then Err(UnsupportedMatch)
    else if RegexFragment.ParseStartsWith(pattern).Some? then
      Ok(HeaderCondition(name, "[0]", "sw", RegexFragment.ParseStartsWith(pattern).value))
    else if RegexFragment.ParseEndsWith(pattern).Some? then
      Ok(HeaderCondition(name, "[0]", "ew", RegexFragment.ParseEndsWith(pattern).value))
    else Err(UnsupportedMatch)
  }

  function MapHeaderMatch(header: HeaderMatch): Result<string> {
    match (if header.matchType.None? then ExactHeader else header.matchType.value)
    case ExactHeader =>
      if ValidLiteral(header.name) && ValidLiteral(header.value)
      then Ok(HeaderCondition(header.name, "", "eq", header.value)) else Err(UnsupportedMatch)
    case RegexHeader => MapRegexHeader(header.name, header.value)
    case UnknownHeader => Err(UnsupportedMatch)
  }

  function MapHeaders(headers: seq<HeaderMatch>): Result<seq<string>> {
    if headers == [] then Ok([])
    else
      match MapHeaderMatch(headers[0])
      case Err(e) => Err(e)
      case Ok(first) =>
        match MapHeaders(headers[1..])
        case Err(e) => Err(e)
        case Ok(rest) => Ok([first] + rest)
  }

  function GetOr(s: Option<string>): string {
    if s.Some? then s.value else ""
  }

  function MapMethodMatch(m: GRPCMethodMatch): Result<string> {
    if m.matchType == Some(OtherMethod) then Err(UnsupportedMatch)
    else
      var service := TrimPrefix(GetOr(m.service), ".");
      var rpcMethod := GetOr(m.rpcMethod);
      if !ValidLiteral(service) || !ValidLiteral(rpcMethod) then Err(UnsupportedMatch)
      else if service != "" && rpcMethod != "" then Ok(PathCondition("eq", "/" + service + "/" + rpcMethod))
      else if service != "" then Ok(PathCondition("sw", "/" + service + "/"))
      else if rpcMethod != "" then Ok(PathCondition("ew", "/" + rpcMethod))
      else Err(EmptyMethodMatch)
  }

  // ----- matches

  /** The conjuncts of one HTTP match: path first, then headers in order. */
  function HTTPConjuncts(m: HTTPRouteMatch): Result<seq<string>> {
    if m.queryParams != [] || m.httpMethod.Some? then Err(UnsupportedMatch)
    else
      match (if m.path.None? then Ok([]) else Single(MapPathMatch(m.path.value)))
      case Err(e) => Err(e)
      case Ok(path) =>
        match MapHeaders(m.headers)
        case Err(e) => Err(e)
        case Ok(headers) => Ok(path + headers)
  }

  function GRPCConjuncts(m: GRPCRouteMatch): Result<seq<string>> {
    match (if m.rpc.None? then Ok([]) else Single(MapMethodMatch(m.rpc.value)))
    case Err(e) => Err(e)
    case Ok(rpc) =>
      match MapHeaders(m.headers)
      case Err(e) => Err(e)
      case Ok(headers) => Ok(rpc + headers)
  }

  function Single(r: Result<string>): Result<seq<string>> {
    match r case Err(e) => Err(e) case Ok(s) => Ok([s])
  }

  /** The conjuncts of every match; the first error ends the translation. */
  function HTTPLists(matches: seq<HTTPRouteMatch>): Result<seq<seq<string>>> {
    if matches == [] then Ok([]) else PrependList(HTTPConjuncts(matches[0]), HTTPLists(matches[1..]))
  }

  function GRPCLists(matches: seq<GRPCRouteMatch>): Result<seq<seq<string>>> {
    if matches == [] then Ok([]) else PrependList(GRPCConjuncts(matches[0]), GRPCLists(matches[1..]))
  }

  function PrependList(first: Result<seq<string>>, rest: Result<seq<seq<string>>>): Result<seq<seq<string>>> {
    match first
    case Err(e) => Err(e)
    case Ok(list) => match rest case Err(e) => Err(e) case Ok(lists) => Ok([list] + lists)
  }

  /** The condition texts of the matches; a match without conjuncts has no text and is left out. */
  function MatchConditions(lists: seq<seq<string>>): seq<string> {
    if lists == [] then []
    else (if AllOf(lists[0]) != "" then [AllOf(lists[0])] else []) + MatchConditions(lists[1..])
  }

  function AnyOf(conditions: seq<string>): string {
    "any(" + Join(conditions, ", ") + ")"
  }

  // ----- hostnames

  function HostHeaderEquals(host: string): string {
    HeaderCondition("host", "", "eq", host)
  }

  /** The bare host and, for exact hosts without a port of their own, the host with the listener port. */
  function HostConditions(host: string, port: nat): seq<string> {
    [HostHeaderEquals(host)] +
    if port > 0 && !HasPrefix(host, "*.") && ':' !in host then [HostHeaderEquals(host + ":" + Itoa(port))] else []
  }

  function AllHostConditions(hostnames: seq<string>, port: nat): seq<string> {
    if hostnames == [] then [] else HostConditions(hostnames[0], port) + AllHostConditions(hostnames[1..], port)
  }

  function ForEachMatch(prefix: seq<string>, matchConditions: seq<string>): seq<string> {
    if matchConditions == [] then []
    else [AllRoutingConditions(prefix + [matchConditions[0]])] + ForEachMatch(prefix, matchConditions[1..])
  }

  function HTTPHostConditions(hostConditions: seq<string>, matchConditions: seq<string>): seq<string> {
    if hostConditions == [] then []
    else
      (if matchConditions == [] then [hostConditions[0]] else ForEachMatch([hostConditions[0]], matchConditions)) +
      HTTPHostConditions(hostConditions[1..], matchConditions)
  }

  function MapHTTPRoute(hostnames: seq<string>, port: nat, matches: seq<HTTPRouteMatch>): Result<string> {
    match HTTPLists(matches)
    case Err(e) => Err(e)
    case Ok(lists) =>
      var matchConditions := MatchConditions(lists);
      if hostnames == [] then Ok(if matchConditions == [] then "" else AnyOf(matchConditions))
      else Ok(AnyOf(HTTPHostConditions(AllHostConditions(hostnames, port), matchConditions)))
  }

  // ----- gRPC

  const GRPC_EXACT := HeaderCondition("content-type", "[0]", "eq", "application/grpc")
  const GRPC_PLUS := HeaderCondition("content-type", "[0]", "sw", "application/grpc+")
  const GRPC_PARAMS := HeaderCondition("content-type", "[0]", "sw", "application/grpc;")

  const GRPC_CONTENT_TYPES: seq<string> := [GRPC_EXACT, GRPC_PLUS, GRPC_PARAMS]

  /** Every content type after the prefix, and before the match condition when there is one. */
  function ForEachContentType(prefix: seq<string>, contentTypes: seq<string>, suffix: seq<string>): seq<string> {
    if contentTypes == [] then []
    else [AllRoutingConditions(prefix + [contentTypes[0]] + suffix)] +
         ForEachContentType(prefix, contentTypes[1..], suffix)
  }

  function GRPCForEachMatch(prefix: seq<string>, matchConditions: seq<string>): seq<string> {
    if matchConditions == [] then []
    else ForEachContentType(prefix, GRPC_CONTENT_TYPES, [matchConditions[0]]) +
         GRPCForEachMatch(prefix, matchConditions[1..])
  }

  function GRPCHostConditions(hostConditions: seq<string>, matchConditions: seq<string>): seq<string> {
    if hostConditions == [] then []
    else
      (if matchConditions == [] then ForEachContentType([hostConditions[0]], GRPC_CONTENT_TYPES, [])
       else GRPCForEachMatch([hostConditions[0]], matchConditions)) +
      GRPCHostConditions(hostConditions[1..], matchConditions)
  }

  function MapGRPCRoute(hostnames: seq<string>, port: nat, matches: seq<GRPCRouteMatch>): Result<string> {
    match GRPCLists(matches)
    case Err(e) => Err(e)
    case Ok(lists) =>
      var matchConditions := MatchConditions(lists);
      if hostnames == [] then
        Ok(if matchConditions == [] then AnyOf(GRPC_CONTENT_TYPES) else AnyOf(GRPCForEachMatch([], matchConditions)))
      else Ok(AnyOf(GRPCHostConditions(AllHostConditions(hostnames, port), matchConditions)))
  }

  // ----- reading a condition back

  /** The arguments of `op(...)`, if the text is such a call and its arguments can be split. */
  function Arguments(op: string, text: string): (r: Option<seq<string>>)
    ensures r.Some? ==> forall p :: p in r.value ==> |p| < |text|
  {
    if HasPrefix(text, op + "(") && HasSuffix(text[|op| + 1..], ")") then
      var inner := text[|op| + 1..|text| - 1];
      if SplitArguments(inner).Some? then
        ArgumentsAreShort(inner);
        SplitArguments(inner)
      else None
    else None
  }

  /** `any` and `all` over the arguments found by the splitter; anything else is an atom. */
  predicate Eval(text: string, holds: string -> bool)
    decreases |text|
  {
    if Arguments("any", text).Some? then exists p | p in Arguments("any", text).value :: Eval(p, holds)
    else if Arguments("all", text).Some? then forall p | p in Arguments("all", text).value :: Eval(p, holds)
    else holds(text)
  }
}
