/** The PHP handler (`handle_php`, src/handler_php.c): run `php` on the
    script the path names, through a pipe, and answer with everything the
    child wrote, collected chunk by chunk. */
module PhpHandler {
  import opened CStrings
  import opened Sera

  /** `sizeof(cmd)`: `snprintf` keeps at most 1023 characters. */
  const CommandSize: nat := 1024

  const PhpPrefix: string := "php "
  const Redirect: string := " 2>&1"

  /** The command line: `php `, the path without its first character, and
      the redirection of standard error into the pipe, cut to the buffer. */
  function Command(path: string): (cmd: string)
    requires |path| >= 1
    ensures |cmd| < CommandSize && StartsWith(cmd, PhpPrefix)
  {
    var full := PhpPrefix + path[1..] + Redirect;
    assert full[..4] == PhpPrefix;
    Truncate(full, CommandSize - 1)
  }

  /** The script a command line runs, read back from it. */
  function ScriptOf(cmd: string): Option<string> {
    if |cmd| >= |PhpPrefix| + |Redirect| && StartsWith(cmd, PhpPrefix) &&
       cmd[|cmd| - |Redirect|..] == Redirect
    then Some(cmd[|PhpPrefix|..|cmd| - |Redirect|])
    else None
  }

  /** A command that fits its buffer runs exactly the script the path names. */
  lemma CommandRunsScript(path: string)
    requires |path| >= 1 && |path| + 8 < CommandSize
    ensures ScriptOf(Command(path)) == Some(path[1..])
  {
    var full := PhpPrefix + path[1..] + Redirect;
    assert Command(path) == full;
    assert full[|full| - |Redirect|..] == Redirect;
    assert full[|PhpPrefix|..|full| - |Redirect|] == path[1..];
  }

  /** A longer path fills the buffer, and the command loses its end. */
  lemma CommandTruncated(path: string)
    requires |path| >= 1 && |path| + 8 >= CommandSize
    ensures |Command(path)| == CommandSize - 1
    ensures Command(path) == (PhpPrefix + path[1..] + Redirect)[..CommandSize - 1]
  {
  }

  /** What `strlen` sees of one chunk `fgets` stored. */
  function ChunkText(chunk: string): (t: string)
    ensures NoNul(t) && StartsWith(chunk, t)
    ensures |t| == |chunk| || chunk[|t|] == '\0'
  {
    CStr(chunk)
  }

  /** The output accumulated from `chunks`, in read order. */
  function Concat(chunks: seq<string>): string {
    if |chunks| == 0 then []
    else Concat(chunks[..|chunks| - 1]) + ChunkText(chunks[|chunks| - 1])
  }

  /** The sum of the chunk lengths. */
  function TotalLength(chunks: seq<string>): nat {
    if |chunks| == 0 then 0
    else TotalLength(chunks[..|chunks| - 1]) + |ChunkText(chunks[|chunks| - 1])|
  }

  /** The accumulated output is as long as the chunks together. */
  lemma {:induction false} ConcatLength(chunks: seq<string>)
    ensures |Concat(chunks)| == TotalLength(chunks)
  {
    if |chunks| > 0 {
      ConcatLength(chunks[..|chunks| - 1]);
    }
  }

  /** Reading in two runs gives the two outputs one after the other. */
  lemma {:induction false} ConcatAppend(a: seq<string>, b: seq<string>)
    ensures Concat(a + b) == Concat(a) + Concat(b)
    decreases |b|
  {
    if |b| > 0 {
      var c := a + b;
      assert c[..|c| - 1] == a + b[..|b| - 1];
      assert c[|c| - 1] == b[|b| - 1];
      ConcatAppend(a, b[..|b| - 1]);
    } else {
      assert a + b == a;
    }
  }

  /** The accumulated output holds no terminator, so `strlen` measures it whole. */
  lemma {:induction false} ConcatNoNul(chunks: seq<string>)
    ensures NoNul(Concat(chunks))
  {
    if |chunks| > 0 {
      ConcatNoNul(chunks[..|chunks| - 1]);
    }
  }

  /** The record `handle_php` returns, for the chunks the pipe delivered
      (`None` when `popen` failed). */
  function PhpResponse(pipe: Option<seq<string>>): Response {
    match pipe
    case None => Response(500, "text/plain", "Failed to execute PHP script", 28)
    case Some(chunks) => Response(200, "text/html", Concat(chunks), |Concat(chunks)|)
  }

  /** Every answer can be sent as it is: 500 exactly when the pipe did not
      open, and otherwise 200 whatever the child's exit status, with a body
      of all the output and a length that counts every chunk. */
  lemma PhpResponseSpec(pipe: Option<seq<string>>)
    ensures WellFormed(PhpResponse(pipe))
    ensures PhpResponse(pipe).status == 500 <==> pipe.None?
    ensures pipe.Some? ==>
              PhpResponse(pipe).contentType == "text/html" &&
              PhpResponse(pipe).body == Concat(pipe.value) &&
              PhpResponse(pipe).bodyLen == TotalLength(pipe.value)
  {
    if pipe.Some? {
      ConcatNoNul(pipe.value);
      ConcatLength(pipe.value);
    }
  }

  /** No output gives the empty body. */
  lemma NoOutputEmptyBody()
    ensures PhpResponse(Some([])) == Response(200, "text/html", "", 0)
  {
  }

  /** Append one chunk to the growing buffer: `realloc` to
      `total + chunk + 1`, copy the chunk's text after what is there. */
  method AppendChunk(output: Option<string>, total: nat, chunk: string) returns (grown: Option<string>, newTotal: nat)
    ensures grown == Some((if output.Some? then output.value else []) + ChunkText(chunk))
    ensures newTotal == total + |ChunkText(chunk)|
  {
    var n := Strlen(chunk);
    var buf := if output.Some? then output.value else [];
    grown := Some(buf + chunk[..n]);
    newTotal := total + n;
  }

  /** The read loop of `handle_php`: every chunk appended in turn, the
      buffer still unallocated (`NULL`) when no chunk came. */
  method ReadOutput(chunks: seq<string>) returns (output: Option<string>, total: nat)
    ensures output.None? <==> chunks == []
    ensures output.Some? ==> output.value == Concat(chunks)
    ensures total == TotalLength(chunks)
  {
    output, total := None, 0;
    var i := 0;
    while i < |chunks|
      invariant i <= |chunks|
      invariant output.None? <==> i == 0
      invariant output.Some? ==> output.value == Concat(chunks[..i])
      invariant total == TotalLength(chunks[..i])
    {
      assert chunks[..i + 1][..i] == chunks[..i];
      output, total := AppendChunk(output, total, chunks[i]);
      i := i + 1;
    }
    assert chunks[..i] == chunks;
  }

  /** `handle_php`: the command it runs, and the record it returns for the
      chunks the pipe delivered. */
  method HandlePhp(req: Request, pipe: Option<seq<string>>) returns (cmd: string, res: Response)
    requires |req.path| >= 1
    ensures cmd == Command(req.path)
    ensures res == PhpResponse(pipe)
  {
    cmd := Command(req.path);
    if pipe.None? {
      var body := "Failed to execute PHP script";
      res := Response(500, "text/plain", body, |body|);
      return;
    }
    var output, total := ReadOutput(pipe.value);
    var body := if output.Some? then output.value else "";
    ConcatNoNul(pipe.value);
    res := Response(200, "text/html", body, Strlen(body));
  }
}
