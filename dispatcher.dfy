/** Request dispatch (src/dispatcher.c): the standalone `<name>` pattern
    matcher, and `dispatch_request`, which picks a handler by extension,
    runs it, and re-dispatches when the handler answers with a forward. */
module Dispatcher {
  import opened CStrings
  import opened Sera
  import opened Router

  // ---------------------------------------------------------------------
  // match_dynamic

  /** What `match_dynamic` reports: no match; a match of a pattern without a
      placeholder (the output buffers are left alone); or a match that filled
      in the parameter name and value. */
  datatype MatchResult = NoMatch | Matched | MatchedParam(name: string, value: string)

  /** The pattern has a placeholder: a `<` and a `>`, the first `>` after the
      first `<`. */
  predicate HasPlaceholder(pattern: string) {
    IndexOf(pattern, '<').Some? && IndexOf(pattern, '>').Some? &&
    IndexOf(pattern, '<').value < IndexOf(pattern, '>').value
  }

  function Open(pattern: string): nat
    requires HasPlaceholder(pattern)
  {
    IndexOf(pattern, '<').value
  }

  function Close(pattern: string): (c: nat)
    requires HasPlaceholder(pattern)
    ensures Open(pattern) < c < |pattern|
  {
    IndexOf(pattern, '>').value
  }

  /** The text before the first `<`. */
  function Prefix(pattern: string): string
    requires HasPlaceholder(pattern)
  {
    pattern[..Open(pattern)]
  }

  /** The text between the first `<` and the first `>`. */
  function Name(pattern: string): string
    requires HasPlaceholder(pattern)
  {
    pattern[Open(pattern) + 1..Close(pattern)]
  }

  /** The text after the first `>`. */
  function Suffix(pattern: string): string
    requires HasPlaceholder(pattern)
  {
    pattern[Close(pattern) + 1..]
  }

  /** `prefix[128]` and `suffix[128]` hold the text around the placeholder. */
  predicate FitsBuffers(pattern: string) {
    HasPlaceholder(pattern) ==> |Prefix(pattern)| < 128 && |Suffix(pattern)| < 128
  }

  /** The placeholder case: the path must start with `prefix`; the value
      runs from there to the first occurrence of `suffix`. */
  function MatchAround(prefix: string, name: string, suffix: string, path: string): (r: MatchResult)
    ensures !r.Matched?
    ensures r.MatchedParam? <==>
              StartsWith(path, prefix) && exists j: nat :: OccursAt(path[|prefix|..], suffix, j)
    ensures r.MatchedParam? ==>
              r.name == name && StartsWith(path, prefix + r.value + suffix) &&
              forall j: nat :: j < |r.value| ==> !OccursAt(path[|prefix|..], suffix, j)
  {
    if !StartsWith(path, prefix) then NoMatch
    else
      var rest := path[|prefix|..];
      match FindSub(rest, suffix)
      case None => NoMatch
      case Some(e) =>
        var value := rest[..e];
        assert path == prefix + rest;
        assert rest[..e + |suffix|] == value + suffix;
        assert (prefix + value + suffix) == path[..|prefix| + e + |suffix|];
        MatchedParam(name, value)
  }

  /** `match_dynamic`. Without a placeholder the pattern must equal the path.
      With one, the path must start with the text before the first `<`; the
      name is the text between the first `<` and the first `>`; the value is
      the path text from the end of the prefix up to the first occurrence of
      the text after the first `>`, and whatever follows that occurrence is
      not looked at. */
  function MatchDynamic(pattern: string, path: string): (r: MatchResult)
    requires FitsBuffers(pattern)
    ensures !HasPlaceholder(pattern) ==> !r.MatchedParam? && (r.Matched? <==> pattern == path)
    ensures HasPlaceholder(pattern) ==>
              !r.Matched? &&
              (r.MatchedParam? <==>
                 StartsWith(path, Prefix(pattern)) &&
                 exists j: nat :: OccursAt(path[|Prefix(pattern)|..], Suffix(pattern), j))
    ensures r.MatchedParam? ==>
              HasPlaceholder(pattern) && r.name == Name(pattern) &&
              StartsWith(path, Prefix(pattern) + r.value + Suffix(pattern)) &&
              forall j: nat :: j < |r.value| ==> !OccursAt(path[|Prefix(pattern)|..], Suffix(pattern), j)
  {
    if !HasPlaceholder(pattern) then
      if pattern == path then Matched else NoMatch
    else
      MatchAround(Prefix(pattern), Name(pattern), Suffix(pattern), path)
  }

  /** When the first `>` ends the pattern the suffix is empty, so every path
      that starts with the prefix matches, with an empty value. */
  lemma EmptySuffixMatchesAnyTail(pattern: string, path: string)
    requires FitsBuffers(pattern) && HasPlaceholder(pattern)
    requires Close(pattern) == |pattern| - 1
    requires StartsWith(path, Prefix(pattern))
    ensures MatchDynamic(pattern, path) == MatchedParam(Name(pattern), "")
  {
    assert Suffix(pattern) == "";
    assert OccursAt(path[|Prefix(pattern)|..], "", 0);
  }

  // ---------------------------------------------------------------------
  // dispatch_request

  /** The body prefix that marks a forward, and its length, 12. */
  const ForwardMarker: string := "__FORWARD__:"

  /** The body the Lua and Python `forward` primitives return. */
  function ForwardBody(path: string): (body: string)
    ensures StartsWith(body, ForwardMarker)
    ensures body[|ForwardMarker|..] == path
  {
    ForwardMarker + path
  }

  /** The fixed answer for a path no handler claims. */
  function NotFound(): (res: Response)
    ensures WellFormed(res) && res.status == 404
  {
    Response(404, "text/plain", "Not Found", 9)
  }

  /** The handler functions, as an oracle: what the handler of a kind
      returns for a request (`None` is a NULL response). */
  type HandlerFunctions = (HandlerKind, Request) -> Option<Response>

  /** How a dispatch ends: it returns a response or NULL, or it is still
      forwarding when the fuel runs out. The source sets no bound on
      forwards; the fuel only measures how far a run is followed. */
  datatype Outcome = Returned(res: Option<Response>) | Unbounded

  /** `dispatch_request`, following at most `fuel` forwards. A returned
      response is never a forward. */
  function Dispatch(run: HandlerFunctions, req: Request, fuel: nat): (r: Outcome)
    ensures r.Returned? && r.res.Some? ==> !StartsWith(r.res.value.body, ForwardMarker)
    decreases fuel
  {
    match FindHandler(req.path)
    case None => Returned(Some(NotFound()))
    case Some(k) =>
      match run(k, req)
      case None => Returned(None)
      case Some(res) =>
        if StartsWith(res.body, ForwardMarker) then
          if fuel == 0 then Unbounded
          else Dispatch(run, PathOnly(res.body[|ForwardMarker|..]), fuel - 1)
        else Returned(Some(res))
  }

  /** A path no handler claims gets the fixed 404, `Not Found`, 9 bytes. */
  lemma DispatchNotFound(run: HandlerFunctions, req: Request, fuel: nat)
    requires FindHandler(req.path).None?
    ensures Dispatch(run, req, fuel) == Returned(Some(Response(404, "text/plain", "Not Found", 9)))
  {
  }

  /** A handler's NULL is passed on; a body without the marker is returned
      as the handler built it. */
  lemma DispatchReturnsHandlerResult(run: HandlerFunctions, req: Request, fuel: nat, k: HandlerKind)
    requires FindHandler(req.path) == Some(k)
    requires run(k, req).None? || !StartsWith(run(k, req).value.body, ForwardMarker)
    ensures Dispatch(run, req, fuel) == Returned(run(k, req))
  {
  }

  /** A forward body `__FORWARD__:` + p starts a fresh dispatch of a request
      that carries the path p and nothing else: method, query and body of the
      original request are dropped. */
  lemma DispatchFollowsForward(run: HandlerFunctions, req: Request, fuel: nat, k: HandlerKind, p: string)
    requires FindHandler(req.path) == Some(k)
    requires run(k, req).Some? && run(k, req).value.body == ForwardBody(p)
    requires fuel > 0
    ensures Dispatch(run, req, fuel) == Dispatch(run, Request(None, p, None, None, 0), fuel - 1)
  {
  }

  /** Fuel is only an observation bound: once a dispatch has returned, more
      fuel returns the same thing. */
  lemma {:induction false} DispatchFuelMonotone(run: HandlerFunctions, req: Request, fuel: nat, more: nat)
    requires Dispatch(run, req, fuel).Returned?
    requires fuel <= more
    ensures Dispatch(run, req, more) == Dispatch(run, req, fuel)
    decreases fuel
  {
    var h := FindHandler(req.path);
    if h.Some? && run(h.value, req).Some? {
      var body := run(h.value, req).value.body;
      if StartsWith(body, ForwardMarker) {
        DispatchFuelMonotone(run, PathOnly(body[|ForwardMarker|..]), fuel - 1, more - 1);
      }
    }
  }

  /** There is no depth bound: a handler that forwards a path to itself
      keeps dispatch forwarding for any amount of fuel. */
  lemma {:induction false} SelfForwardNeverReturns(run: HandlerFunctions, p: string, k: HandlerKind, fuel: nat)
    requires FindHandler(p) == Some(k)
    requires run(k, PathOnly(p)).Some? && run(k, PathOnly(p)).value.body == ForwardBody(p)
    ensures Dispatch(run, PathOnly(p), fuel) == Unbounded
    decreases fuel
  {
    if fuel > 0 {
      SelfForwardNeverReturns(run, p, k, fuel - 1);
    }
  }

  /** What dispatch returns is the fixed 404, or NULL or a response that a
      handler answered for some path routed to it. */
  lemma {:induction false} DispatchResultOrigin(run: HandlerFunctions, req: Request, fuel: nat)
    requires Dispatch(run, req, fuel).Returned?
    ensures var r := Dispatch(run, req, fuel).res;
            r == Some(NotFound()) ||
            exists k: HandlerKind, q: Request :: FindHandler(q.path) == Some(k) && run(k, q) == r
    decreases fuel
  {
    match FindHandler(req.path)
    case None =>
    case Some(k) =>
      match run(k, req)
      case None =>
      case Some(res) =>
        if StartsWith(res.body, ForwardMarker) {
          DispatchResultOrigin(run, PathOnly(res.body[|ForwardMarker|..]), fuel - 1);
        }
  }
}
