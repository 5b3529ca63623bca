/** One connection (`handle_client`, src/main.c): read the request, take
    its first two tokens, resolve the path against the document root,
    dispatch, and answer with the handler's response or a fixed 500. */
module Server {
  import opened CStrings
  import opened Sera
  import opened Router
  import opened Dispatcher
  import opened ResponseWriter

  /** `sizeof(buf) - 1`: one read takes at most 4095 bytes. */
  const ReadSize: nat := 4095
  /** `sizeof(resolved)`: `snprintf` keeps at most 2047 characters. */
  const ResolvedSize: nat := 2048

  // ---------------------------------------------------------------------
  // sscanf(buf, "%s %s", method, path)

  /** The run of non-space characters at the start of `s`. */
  function LeadingWord(s: string): (r: string)
    ensures StartsWith(s, r)
    ensures forall i :: 0 <= i < |r| ==> !IsSpace(r[i])
    ensures |r| < |s| ==> IsSpace(s[|r|])
  {
    if |s| == 0 || IsSpace(s[0]) then [] else [s[0]] + LeadingWord(s[1..])
  }

  /** One `%s` conversion: skip white space, then take the word that
      follows; also gives the text after the word. */
  function Token(s: string): (string, string) {
    var t := SkipSpace(s);
    var w := LeadingWord(t);
    (w, t[|w|..])
  }

  /** The method and the path `sscanf` stores, when both conversions
      succeed; `None` when the text runs out first. */
  function FirstTwoTokens(s: string): (r: Option<(string, string)>)
    ensures r.Some? ==> |r.value.0| > 0 && |r.value.1| > 0
    ensures r.Some? ==>
              (forall i :: 0 <= i < |r.value.0| ==> !IsSpace(r.value.0[i])) &&
              (forall i :: 0 <= i < |r.value.1| ==> !IsSpace(r.value.1[i]))
  {
    var (m, rest) := Token(s);
    if m == [] then None
    else
      var (p, _) := Token(rest);
      if p == [] then None else Some((m, p))
  }

  /** A word followed by white space or by the end of the text is what the
      word scan takes. */
  lemma {:induction false} LeadingWordOf(w: string, rest: string)
    requires forall i :: 0 <= i < |w| ==> !IsSpace(w[i])
    requires rest == [] || IsSpace(rest[0])
    ensures LeadingWord(w + rest) == w
  {
    if |w| > 0 {
      assert (w + rest)[1..] == w[1..] + rest;
      LeadingWordOf(w[1..], rest);
    }
  }

  /** The scan skips any white space before a token. */
  lemma SkipSpaceBefore(sp: string, s: string)
    requires AllSpace(sp)
    requires s == [] || !IsSpace(s[0])
    ensures SkipSpace(sp + s) == s
  {
    var t := sp + s;
    assert t[|sp|..] == s;
  }

  /** One `%s` conversion over white space, a word and what follows it. */
  lemma TokenOf(sp: string, w: string, rest: string)
    requires AllSpace(sp)
    requires |w| > 0 && forall i :: 0 <= i < |w| ==> !IsSpace(w[i])
    requires rest == [] || IsSpace(rest[0])
    ensures Token(sp + (w + rest)) == (w, rest)
  {
    SkipSpaceBefore(sp, w + rest);
    LeadingWordOf(w, rest);
    assert (w + rest)[|w|..] == rest;
  }

  /** A request line `method SP path SP ...`, with any white space before
      each token, yields the method and the path. */
  lemma TokensOfRequestLine(sp1: string, m: string, sp2: string, p: string, rest: string)
    requires AllSpace(sp1) && AllSpace(sp2) && |sp2| > 0
    requires |m| > 0 && forall i :: 0 <= i < |m| ==> !IsSpace(m[i])
    requires |p| > 0 && forall i :: 0 <= i < |p| ==> !IsSpace(p[i])
    requires rest == [] || IsSpace(rest[0])
    ensures FirstTwoTokens(sp1 + (m + (sp2 + (p + rest)))) == Some((m, p))
  {
    TokenOf(sp1, m, sp2 + (p + rest));
    TokenOf(sp2, p, rest);
  }

  /** A text with fewer than two tokens gives the scan nothing to store as
      the path. */
  lemma OneTokenOnly(sp: string, m: string, trailing: string)
    requires AllSpace(sp) && AllSpace(trailing)
    requires |m| > 0 && forall i :: 0 <= i < |m| ==> !IsSpace(m[i])
    ensures FirstTwoTokens(sp + (m + trailing)).None?
  {
    TokenOf(sp, m, trailing);
    assert trailing + [] == trailing;
    SkipSpaceBefore(trailing, []);
  }

  // ---------------------------------------------------------------------
  // Path resolution

  /** What `snprintf` leaves in `resolved[2048]`: `/` is the root directory
      and the index file; any other path is appended to the root as it is. */
  function ResolvePath(root: string, index: string, path: string): (r: string)
    ensures |r| < ResolvedSize
  {
    Truncate(if path == "/" then root + "/" + index else root + path, ResolvedSize - 1)
  }

  /** Within the buffer, `/` names the index file under the root. */
  lemma ResolveIndex(root: string, index: string)
    requires |root| + 1 + |index| < ResolvedSize
    ensures ResolvePath(root, index, "/") == root + "/" + index
  {
  }

  /** Within the buffer, any other path follows the root verbatim: nothing
      is normalised, so `..` segments are kept and can climb out of the
      root once the file system resolves them. */
  lemma ResolveVerbatim(root: string, index: string, path: string)
    requires path != "/" && |root| + |path| < ResolvedSize
    ensures ResolvePath(root, index, path) == root + path
    ensures StartsWith(ResolvePath(root, index, path), root)
    ensures ResolvePath(root, index, path)[|root|..] == path
  {
    assert (root + path)[..|root|] == root;
  }

  /** Resolution loses nothing within the buffer: two different request
      paths other than `/` give two different resolved path strings. The
      strings are not normalised, so different strings (`/x.lua`,
      `//x.lua`, `/./x.lua`) may still name one file. */
  lemma ResolveInjective(root: string, index: string, p: string, q: string)
    requires p != "/" && q != "/" && p != q
    requires |root| + |p| < ResolvedSize && |root| + |q| < ResolvedSize
    ensures ResolvePath(root, index, p) != ResolvePath(root, index, q)
  {
    ResolveVerbatim(root, index, p);
    ResolveVerbatim(root, index, q);
  }

  /** Past the buffer the resolved path is cut to 2047 characters: two paths
      that agree on that much reach the same file. */
  lemma ResolveTruncates(root: string, index: string, path: string, more: string)
    requires path != "/" && path + more != "/" && |root| + |path| >= ResolvedSize - 1
    ensures ResolvePath(root, index, path + more) == ResolvePath(root, index, path)
    ensures |ResolvePath(root, index, path)| == ResolvedSize - 1
  {
    assert (root + (path + more))[..ResolvedSize - 1] == (root + path)[..ResolvedSize - 1];
    assert root + (path + more) == root + path + more;
  }

  /** With a root and an index file that fit the configuration's buffers
      (`char root[256]`, `char index[128]`) and a path that fits `path[1024]`,
      the resolved text is never cut: truncation needs a longer root. */
  lemma ResolveWithinConfig(root: string, index: string, path: string)
    requires |root| < 256 && |index| < 128 && |path| < 1024
    ensures ResolvePath(root, index, path) ==
            if path == "/" then root + "/" + index else root + path
  {
    if path == "/" {
      ResolveIndex(root, index);
    } else {
      ResolveVerbatim(root, index, path);
    }
  }

  // ---------------------------------------------------------------------
  // handle_client

  /** The fixed record sent when dispatch returns NULL. */
  function InternalError(): (res: Response)
    ensures WellFormed(res) && res.status == 500
  {
    Response(500, "text/plain", "Internal Server Error", 21)
  }

  /** What one call of `handle_client` does to the connection: the bytes it
      writes, whether it closes the descriptor, and the blocks it frees
      itself with `free_http_response`. The frees of forwarded responses
      inside `dispatch_request` are not recorded here. */
  datatype Handling = Handling(written: string, closes: bool, freed: seq<Block>)

  /** Nothing written, nothing closed, nothing freed. */
  function Untouched(): Handling {
    Handling([], false, [])
  }

  /** The request `handle_client` passes to dispatch, for a read that
      holds two tokens. */
  function RequestFor(received: string, root: string, index: string): Request
    requires FirstTwoTokens(CStr(received)).Some?
  {
    PathOnly(ResolvePath(root, index, FirstTwoTokens(CStr(received)).value.1))
  }

  /** Each byte count `read` may return gives either nothing (0 or an error,
      an empty `received`) or a request holding a method of at most 7 and a
      path of at most 1023 characters. */
  predicate ReadFits(received: string) {
    |received| <= ReadSize &&
    (|received| > 0 ==>
       FirstTwoTokens(CStr(received)).Some? &&
       |FirstTwoTokens(CStr(received)).value.0| < 8 &&
       |FirstTwoTokens(CStr(received)).value.1| < 1024)
  }

  /** Every handler response can be sent: its length matches its body and
      neither text holds a terminator. */
  ghost predicate HandlersWellFormed(run: HandlerFunctions) {
    forall k, q :: run(k, q).Some? ==> WellFormed(run(k, q).value)
  }

  /** A dispatch outcome whose response, if any, can be sent. */
  predicate Sendable(o: Outcome) {
    o.Returned? && o.res.Some? ==> WellFormed(o.res.value)
  }

  /** The response dispatch hands back can be sent when the handlers' can. */
  lemma DispatchSendable(run: HandlerFunctions, req: Request, fuel: nat)
    requires HandlersWellFormed(run)
    ensures Sendable(Dispatch(run, req, fuel))
  {
    if Dispatch(run, req, fuel).Returned? {
      DispatchResultOrigin(run, req, fuel);
    }
  }

  /** What `handle_client` does with a dispatch outcome: NULL sends the 500
      and returns, leaving the descriptor open; a response is sent, freed,
      and the descriptor closed. A dispatch still forwarding when the fuel
      runs out has done nothing to the connection yet. */
  function Answer(o: Outcome): Handling
    requires Sendable(o)
  {
    match o
    case Unbounded => Untouched()
    case Returned(None) => Handling(Wire(InternalError()), false, [])
    case Returned(Some(res)) => Handling(Wire(res), true, FreeResponse(Some(res)))
  }

  /** `handle_client` as written, for the text one `read` returned (empty
      for 0 or an error): an empty read returns at once; otherwise the
      request for the resolved path is dispatched and answered. */
  function ServeAsWritten(received: string, root: string, index: string, run: HandlerFunctions, fuel: nat): Handling
    requires ReadFits(received) && HandlersWellFormed(run)
  {
    if |received| == 0 then Untouched()
    else
      var req := RequestFor(received, root, index);
      DispatchSendable(run, req, fuel);
      Answer(Dispatch(run, req, fuel))
  }

  /** `handle_client` with the descriptor closed on every path that
      returns, the empty read and the 500 included. */
  function Serve(received: string, root: string, index: string, run: HandlerFunctions, fuel: nat): Handling
    requires ReadFits(received) && HandlersWellFormed(run)
  {
    if |received| == 0 then Handling([], true, [])
    else
      var req := RequestFor(received, root, index);
      DispatchSendable(run, req, fuel);
      var o := Dispatch(run, req, fuel);
      Answer(o).(closes := Answer(o).closes || o.Returned?)
  }

  /** Send what an outcome calls for: `send_http_response` with the 500
      record or with the handler's response, then `free_http_response` and
      `close` for the latter. */
  method Respond(sock: Socket, o: Outcome) returns (freed: seq<Block>)
    requires Sendable(o)
    modifies sock
    ensures sock.output == old(sock.output) + Answer(o).written
    ensures sock.closed == (old(sock.closed) || Answer(o).closes)
    ensures freed == Answer(o).freed
  {
    freed := [];
    if o.Unbounded? {
      return;
    }
    if o.res.None? {
      SendHttpResponse(sock, InternalError());
      return;
    }
    var res := o.res.value;
    SendHttpResponse(sock, res);
    freed := FreeResponse(Some(res));
    sock.Close();
  }

  /** `handle_client` as written. */
  method HandleClientAsWritten(sock: Socket, received: string, root: string, index: string,
                               run: HandlerFunctions, fuel: nat) returns (freed: seq<Block>)
    requires ReadFits(received) && HandlersWellFormed(run)
    modifies sock
    ensures var h := ServeAsWritten(received, root, index, run, fuel);
            sock.output == old(sock.output) + h.written &&
            sock.closed == (old(sock.closed) || h.closes) &&
            freed == h.freed
  {
    if |received| == 0 {
      return [];
    }
    var tokens := FirstTwoTokens(CStr(received));
    var req := PathOnly(ResolvePath(root, index, tokens.value.1));
    var outcome := Dispatch(run, req, fuel);
    DispatchSendable(run, req, fuel);
    freed := Respond(sock, outcome);
  }

  /** `handle_client` closing the descriptor on every path that returns. */
  method HandleClient(sock: Socket, received: string, root: string, index: string,
                      run: HandlerFunctions, fuel: nat) returns (freed: seq<Block>)
    requires ReadFits(received) && HandlersWellFormed(run)
    modifies sock
    ensures var h := Serve(received, root, index, run, fuel);
            sock.output == old(sock.output) + h.written &&
            sock.closed == (old(sock.closed) || h.closes) &&
            freed == h.freed
  {
    if |received| == 0 {
      sock.Close();
      return [];
    }
    var tokens := FirstTwoTokens(CStr(received));
    var req := PathOnly(ResolvePath(root, index, tokens.value.1));
    var outcome := Dispatch(run, req, fuel);
    DispatchSendable(run, req, fuel);
    freed := Respond(sock, outcome);
    if outcome.Returned? {
      sock.Close();
    }
  }

  // ---------------------------------------------------------------------
  // Properties of one connection

  /** A read of 0 bytes or an error ends handling without a dispatch: the
      connection sees nothing. */
  lemma EmptyReadSendsNothing(root: string, index: string, run: HandlerFunctions, fuel: nat)
    requires HandlersWellFormed(run)
    ensures ServeAsWritten([], root, index, run, fuel) == Untouched()
  {
  }

  /** The 500 record reads back whole: status 500, `text/plain` and the
      21 bytes `Internal Server Error`. */
  lemma InternalErrorReadsBack()
    ensures ReadResponse(Wire(InternalError())) == Some(InternalError())
  {
    ReadWireWhole(InternalError());
  }

  /** When dispatch returns NULL, a client reads back status 500,
      `text/plain` and the 21 bytes `Internal Server Error`. */
  lemma NullResponseReadsAs500(received: string, root: string, index: string, run: HandlerFunctions, fuel: nat)
    requires ReadFits(received) && HandlersWellFormed(run) && |received| > 0
    requires Dispatch(run, RequestFor(received, root, index), fuel) == Returned(None)
    ensures ReadResponse(ServeAsWritten(received, root, index, run, fuel).written) ==
            Some(Response(500, "text/plain", "Internal Server Error", 21))
  {
    InternalErrorReadsBack();
  }

  /** A handler's response reaches the client as it was returned: status,
      content type, `body_len` and exactly that many body bytes read back,
      whenever the header fits its buffer; the record is then freed. */
  lemma ResponseReadsBack(received: string, root: string, index: string, run: HandlerFunctions, fuel: nat, res: Response)
    requires ReadFits(received) && HandlersWellFormed(run) && |received| > 0
    requires Dispatch(run, RequestFor(received, root, index), fuel) == Returned(Some(res))
    requires WellFormed(res) && NoCR(res.contentType)
    requires -0x8000_0000 <= res.status < 0x8000_0000 && res.bodyLen < 0x1_0000_0000_0000_0000
    requires |res.contentType| <= 923
    ensures var h := ServeAsWritten(received, root, index, run, fuel);
            ReadResponse(h.written) == Some(res) && h.freed == [BodyBlock, RecordBlock]
  {
    ReadWireWhole(res);
  }

  /** The dispatched request carries the resolved path and nothing else. */
  lemma DispatchedRequestIsPathOnly(received: string, root: string, index: string)
    requires ReadFits(received) && |received| > 0
    ensures var req := RequestFor(received, root, index);
            req.verb.None? && req.query.None? && req.body.None? && req.bodyLen == 0 &&
            |req.path| < ResolvedSize
  {
  }

  /** The path a request that fits the buffers is dispatched with is the
      whole resolved text, for every root and index file the configuration
      can hold. */
  lemma RequestPathWhole(received: string, root: string, index: string)
    requires ReadFits(received) && |received| > 0
    requires |root| < 256 && |index| < 128
    ensures var p := FirstTwoTokens(CStr(received)).value.1;
            RequestFor(received, root, index).path ==
            if p == "/" then root + "/" + index else root + p
  {
    ResolveWithinConfig(root, index, FirstTwoTokens(CStr(received)).value.1);
  }

  /** The corrected handler closes the descriptor on every path that
      returns, and otherwise does what the written one does. */
  lemma ServeClosesWhenDone(received: string, root: string, index: string, run: HandlerFunctions, fuel: nat)
    requires ReadFits(received) && HandlersWellFormed(run)
    requires |received| == 0 || Dispatch(run, RequestFor(received, root, index), fuel).Returned?
    ensures Serve(received, root, index, run, fuel).closes
    ensures Serve(received, root, index, run, fuel).written == ServeAsWritten(received, root, index, run, fuel).written
    ensures Serve(received, root, index, run, fuel).freed == ServeAsWritten(received, root, index, run, fuel).freed
  {
  }

  /** A handler that answers NULL for everything. */
  function NullHandlers(): HandlerFunctions {
    (k: HandlerKind, q: Request) => None
  }

  /** A received text without a terminator is read whole. */
  lemma CStrOfText(s: string)
    requires NoNul(s)
    ensures CStr(s) == s
  {
  }

  /** `GET /x.lua HTTP/1.1` has the tokens `GET` and `/x.lua`. */
  lemma ExampleTokens(received: string)
    requires received == "GET /x.lua HTTP/1.1"
    ensures FirstTwoTokens(CStr(received)) == Some(("GET", "/x.lua"))
  {
    CStrOfText(received);
    assert received == [] + ("GET" + (" " + ("/x.lua" + " HTTP/1.1")));
    TokensOfRequestLine([], "GET", " ", "/x.lua", " HTTP/1.1");
  }

  /** `/x.lua` under `./scripts` selects the Lua handler. */
  lemma ExampleRoutesToLua(root: string, path: string)
    requires root == "./scripts" && path == "/x.lua"
    ensures FindHandler(ResolvePath(root, "app.lua", path)) == Some(Lua)
  {
    ResolveVerbatim(root, "app.lua", path);
    assert root + path == "./scripts/x" + Handlers[0].0;
    LastExtensionWins("./scripts/x", 0);
  }

  /** As written, a NULL from the handler leaves the descriptor open after
      the 500, where the corrected handler closes it. */
  lemma NullResponseLeavesSocketOpen(received: string, root: string, index: string, run: HandlerFunctions, fuel: nat)
    requires ReadFits(received) && HandlersWellFormed(run) && |received| > 0
    requires Dispatch(run, RequestFor(received, root, index), fuel) == Returned(None)
    ensures var h := ServeAsWritten(received, root, index, run, fuel);
            h.written == Wire(InternalError()) && !h.closes
    ensures Serve(received, root, index, run, fuel).closes
  {
  }

  /** The case is reachable: with the root `./scripts`, the request
      `GET /x.lua HTTP/1.1` resolves to `./scripts/x.lua`, which selects the
      Lua handler, and a Lua handler that returns NULL gets the 500 sent
      and the descriptor left open. */
  lemma NullResponseExample(received: string, root: string)
    requires received == "GET /x.lua HTTP/1.1" && root == "./scripts"
    ensures ReadFits(received) && HandlersWellFormed(NullHandlers()) &&
            var h := ServeAsWritten(received, root, "app.lua", NullHandlers(), 0);
            h.written == Wire(InternalError()) && !h.closes
  {
    ExampleTokens(received);
    ExampleRoutesToLua(root, "/x.lua");
    var req := RequestFor(received, root, "app.lua");
    assert Dispatch(NullHandlers(), req, 0) == Returned(None);
  }
}
