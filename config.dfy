/** Configuration loading (src/config.c, include/config.h): defaults first,
    then `key=value` lines read one buffer at a time, trimmed in place, with
    `port`, `root` and `index` recognised and the last occurrence winning. */
module Config {
  import opened CStrings
  import opened Decimal

  /** Buffer sizes: the line buffer, the key and value copies, and the
      `root` and `index` fields of `sera_config_t`. */
  const LineSize: nat := 512
  const KeySize: nat := 64
  const ValSize: nat := 256
  const RootSize: nat := 256
  const IndexSize: nat := 128

  /** The value of a `sera_config_t`. */
  datatype Settings = Settings(port: int, root: string, index: string)

  /** What `set_defaults` stores. */
  function Defaults(): Settings {
    Settings(8080, "./scripts", "app.lua")
  }

  // ---------------------------------------------------------------------
  // C buffers

  /** `strcpy(dst, s)` (and `fgets` filling its buffer with one line): the
      characters of `s` followed by a terminator. */
  method CopyInto(dst: array<char>, s: string)
    requires |s| < dst.Length && NoNul(s)
    modifies dst
    ensures dst[..|s|] == s && dst[|s|] == '\0'
    ensures Terminated(dst) && CStr(dst[..]) == s
  {
    var i := 0;
    while i < |s|
      invariant 0 <= i <= |s|
      invariant dst[..i] == s[..i]
    {
      dst[i] := s[i];
      i := i + 1;
    }
    dst[|s|] := '\0';
    assert dst[..|s|] == s;
    StrlenOfTerminated(dst[..], s);
  }

  // ---------------------------------------------------------------------
  // trim

  /** `s` without the white space at its end. */
  function DropTrailingSpace(s: string): (r: string)
    ensures StartsWith(s, r) && AllSpace(s[|r|..])
    ensures |r| > 0 ==> !IsSpace(r[|r| - 1])
  {
    if |s| > 0 && IsSpace(s[|s| - 1]) then
      var r := DropTrailingSpace(s[..|s| - 1]);
      assert s[..|s| - 1][..|r|] == s[..|r|];
      assert forall i :: |r| <= i < |s| - 1 ==> s[i] == s[..|s| - 1][i];
      r
    else s
  }

  /** What `trim` leaves in a buffer holding `s`. Only the trailing white
      space is cut: the leading white space is skipped by a local pointer
      only, and a buffer of nothing but white space is left as it was. */
  function Trimmed(s: string): (r: string)
    ensures StartsWith(s, r) && AllSpace(s[|r|..])
    ensures !AllSpace(s) ==> |r| > 0 && !IsSpace(r[|r| - 1])
    ensures AllSpace(s) ==> r == s
  {
    if AllSpace(s) then s
    else
      var r := DropTrailingSpace(s);
      r
  }

  /** Cutting at the last non-space character is what `DropTrailingSpace` does. */
  lemma {:induction false} DropTrailingSpaceAt(s: string, e: nat)
    requires e < |s| && !IsSpace(s[e]) && AllSpace(s[e + 1..])
    ensures DropTrailingSpace(s) == s[..e + 1]
    decreases |s|
  {
    if |s| > e + 1 {
      assert IsSpace(s[e + 1..][|s| - e - 2]);
      assert s[..|s| - 1][e + 1..] == s[e + 1..|s| - 1];
      DropTrailingSpaceAt(s[..|s| - 1], e);
      assert s[..|s| - 1][..e + 1] == s[..e + 1];
    }
  }

  /** The first loop of `trim`: the position of the first character of
      the C string in `s` that is not white space, or of its terminator. */
  method SkipLeadingSpace(s: array<char>) returns (p: nat)
    requires Terminated(s)
    ensures p <= |CStr(s[..])| && AllSpace(CStr(s[..])[..p])
    ensures p < |CStr(s[..])| ==> !IsSpace(s[p])
    ensures p == |CStr(s[..])| ==> s[p] == '\0'
  {
    ghost var text := CStr(s[..]);
    p := 0;
    while IsSpace(s[p])
      invariant 0 <= p <= |text|
      invariant AllSpace(text[..p])
      decreases |text| - p
    {
      assert p < |text|;
      assert text[..p + 1] == text[..p] + [text[p]];
      p := p + 1;
    }
  }

  /** The second loop of `trim`: from the end of the C string back to its
      last character that is not white space, stopping at `p`. */
  method LastNonSpace(s: array<char>, p: nat) returns (end: nat)
    requires Terminated(s) && p < |CStr(s[..])| && !IsSpace(s[p])
    ensures p <= end < |CStr(s[..])| && !IsSpace(CStr(s[..])[end])
    ensures AllSpace(CStr(s[..])[end + 1..])
  {
    ghost var text := CStr(s[..]);
    end := p + Strlen(s[p..]) - 1;
    assert end == |text| - 1 by {
      StrlenOfTerminated(s[p..], text[p..]);
    }
    while end > p && IsSpace(s[end])
      invariant p <= end < |text|
      invariant AllSpace(text[end + 1..])
      decreases end
    {
      assert text[end..] == [text[end]] + text[end + 1..];
      end := end - 1;
    }
  }

  /** `trim`: in the buffer, cut the trailing white space of the C string it
      holds by writing a terminator after its last non-space character. */
  method Trim(s: array<char>)
    requires Terminated(s)
    modifies s
    ensures Terminated(s)
    ensures CStr(s[..]) == Trimmed(old(CStr(s[..])))
  {
    ghost var text := CStr(s[..]);
    var p := SkipLeadingSpace(s);
    if s[p] == '\0' {
      assert text[..p] == text;
      return;
    }
    var end := LastNonSpace(s, p);
    assert !AllSpace(text) by {
      assert text[p] == s[p];
    }
    DropTrailingSpaceAt(text, end);
    s[end + 1] := '\0';
    StrlenOfTerminated(s[..], text[..end + 1]);
  }

  // ---------------------------------------------------------------------
  // load_config

  /** The key and value a line sets, or `None` for a line that is skipped:
      a comment, one that is empty once trimmed, or one without `=`. The
      split is at the first `=`, and each side is trimmed again. */
  function Entry(raw: string): Option<(string, string)> {
    LineEntry(Trimmed(raw))
  }

  /** The key and value a line that is already trimmed sets. */
  function LineEntry(line: string): Option<(string, string)> {
    if line == [] || line[0] == '#' then None
    else
      match IndexOf(line, '=')
      case None => None
      case Some(e) => Some((Trimmed(line[..e]), Trimmed(line[e + 1..])))
  }

  /** One recognised key overwrites its field: `port` with `atoi` of the
      value, `root` and `index` with as much of it as their fields hold. */
  function Assign(c: Settings, key: string, val: string): Settings {
    if key == "port" then c.(port := Atoi(val))
    else if key == "root" then c.(root := Truncate(val, RootSize - 1))
    else if key == "index" then c.(index := Truncate(val, IndexSize - 1))
    else c
  }

  /** The effect of one line. */
  function ApplyLine(c: Settings, raw: string): Settings {
    ApplyEntry(c, Entry(raw))
  }

  /** The effect of a key and value, if the line gave one. */
  function ApplyEntry(c: Settings, entry: Option<(string, string)>): Settings {
    match entry
    case None => c
    case Some((key, val)) => Assign(c, key, val)
  }

  /** The effect of the lines read so far, in order. */
  function ApplyLines(c: Settings, lines: seq<string>): Settings {
    if lines == [] then c
    else ApplyLine(ApplyLines(c, lines[..|lines| - 1]), lines[|lines| - 1])
  }

  /** Comment lines, lines empty once trimmed and lines without `=` change
      nothing. */
  lemma SkippedLines(c: Settings, raw: string)
    requires (|raw| > 0 && raw[0] == '#') || AllSpace(raw) ||
             forall j :: 0 <= j < |raw| ==> raw[j] != '='
    ensures ApplyLine(c, raw) == c
  {
    var line := Trimmed(raw);
    if |raw| > 0 && raw[0] == '#' {
      assert !AllSpace(raw) by { assert !IsSpace(raw[0]); }
      assert line[0] == raw[0];
    } else if !AllSpace(raw) && line != [] && line[0] != '#' {
      assert forall j :: 0 <= j < |line| ==> line[j] == raw[j];
    }
  }

  /** A key written with leading white space is not recognised: the line
      is ignored. */
  lemma IndentedKeyIgnored(c: Settings, raw: string)
    requires |raw| > 0 && IsSpace(raw[0])
    ensures ApplyLine(c, raw) == c
  {
    var line := Trimmed(raw);
    if line != [] && line[0] != '#' && IndexOf(line, '=').Some? {
      var e := IndexOf(line, '=').value;
      assert line[0] == raw[0];
      assert e > 0;
      var key := Trimmed(line[..e]);
      assert line[..e][0] == raw[0];
      if AllSpace(line[..e]) {
        assert key == line[..e];
      } else {
        assert key[0] == line[..e][0];
      }
      assert key[0] == raw[0];
    }
  }

  /** `port` takes `atoi` of its value, so a value without digits sets it to 0. */
  lemma PortWithoutDigits(c: Settings, raw: string, v: string)
    requires Entry(raw) == Some(("port", v))
    requires forall j :: 0 <= j < |v| ==> !IsDigit(v[j])
    ensures ApplyLine(c, raw).port == 0
  {
    AtoiWithoutDigits(v);
  }

  /** The line sets `key`. */
  predicate Sets(raw: string, key: string) {
    Entry(raw).Some? && Entry(raw).value.0 == key
  }

  /** The field `key` names holds what `val` gives it. */
  predicate Holds(c: Settings, key: string, val: string) {
    (key == "port" ==> c.port == Atoi(val)) &&
    (key == "root" ==> c.root == Truncate(val, RootSize - 1)) &&
    (key == "index" ==> c.index == Truncate(val, IndexSize - 1))
  }

  /** A line that sets a key gives its field the line's value. */
  lemma LineSetsField(c: Settings, raw: string)
    requires Entry(raw).Some?
    ensures Holds(ApplyLine(c, raw), Entry(raw).value.0, Entry(raw).value.1)
  {
  }

  /** A line that does not set a key leaves its field as it was. */
  lemma LineKeepsField(c: Settings, raw: string, key: string, val: string)
    requires !Sets(raw, key) && Holds(c, key, val)
    ensures Holds(ApplyLine(c, raw), key, val)
  {
  }

  /** The last line that sets a key decides its value; earlier lines that
      set it are overridden. */
  lemma {:induction false} LastOccurrenceWins(c: Settings, lines: seq<string>, i: nat)
    requires i < |lines| && Entry(lines[i]).Some?
    requires forall j :: i < j < |lines| ==> !Sets(lines[j], Entry(lines[i]).value.0)
    ensures Holds(ApplyLines(c, lines), Entry(lines[i]).value.0, Entry(lines[i]).value.1)
  {
    var init, last := lines[..|lines| - 1], lines[|lines| - 1];
    assert ApplyLines(c, lines) == ApplyLine(ApplyLines(c, init), last);
    if i < |lines| - 1 {
      assert init[i] == lines[i];
      assert forall j :: i < j < |init| ==> init[j] == lines[j];
      LastOccurrenceWins(c, init, i);
      LineKeepsField(ApplyLines(c, init), last, Entry(lines[i]).value.0, Entry(lines[i]).value.1);
    } else {
      LineSetsField(ApplyLines(c, init), last);
    }
  }

  /** Lines that set none of `port`, `root` and `index` leave the settings
      as they were. */
  lemma {:induction false} UnrecognisedLinesIgnored(c: Settings, lines: seq<string>)
    requires forall j :: 0 <= j < |lines| ==>
               !Sets(lines[j], "port") && !Sets(lines[j], "root") && !Sets(lines[j], "index")
    ensures ApplyLines(c, lines) == c
  {
    if lines != [] {
      UnrecognisedLinesIgnored(c, lines[..|lines| - 1]);
    }
  }

  /** Fields within their buffers stay within them after any line. */
  lemma LineKeepsBounds(c: Settings, raw: string)
    requires |c.root| < RootSize && |c.index| < IndexSize
    ensures |ApplyLine(c, raw).root| < RootSize && |ApplyLine(c, raw).index| < IndexSize
  {
  }

  /** Fields within their buffers stay within them after any lines. */
  lemma {:induction false} BoundsPreserved(c: Settings, lines: seq<string>)
    requires |c.root| < RootSize && |c.index| < IndexSize
    ensures |ApplyLines(c, lines).root| < RootSize && |ApplyLines(c, lines).index| < IndexSize
  {
    if lines != [] {
      var init := lines[..|lines| - 1];
      BoundsPreserved(c, init);
      LineKeepsBounds(ApplyLines(c, init), lines[|lines| - 1]);
    }
  }

  /** `root` never exceeds 255 characters and `index` never 127, starting
      from the defaults. */
  lemma FieldsStayBounded(lines: seq<string>)
    ensures |ApplyLines(Defaults(), lines).root| < RootSize
    ensures |ApplyLines(Defaults(), lines).index| < IndexSize
  {
    BoundsPreserved(Defaults(), lines);
  }

  /** A line as `fgets` hands it over fits the line buffer, and the key and
      value it is split into fit `key[64]` and `val[256]`. */
  predicate FitsBuffers(raw: string) {
    |raw| < LineSize && NoNul(raw) && SplitFits(Trimmed(raw))
  }

  /** The key and value a trimmed line is split into fit their buffers. */
  predicate SplitFits(line: string) {
    line != [] && line[0] != '#' && IndexOf(line, '=').Some? ==>
      IndexOf(line, '=').value < KeySize && |line| - IndexOf(line, '=').value - 1 < ValSize
  }

  class ServerConfig {
    var port: int
    var root: string
    var index: string

    function Value(): Settings
      reads this
    {
      Settings(port, root, index)
    }

    /** A configuration record before anything is stored in it. */
    constructor ()
      ensures Value() == Settings(0, "", "")
    {
      port, root, index := 0, "", "";
    }

    /** `set_defaults`. */
    method SetDefaults()
      modifies this
      ensures Value() == Defaults()
    {
      port := 8080;
      root := "./scripts";
      index := "app.lua";
    }

    /** `load_config`, with the file given as the lines `fgets` returns from
      it, or `None` when it cannot be opened. Defaults are stored first, so
      a missing file leaves exactly the defaults and returns 0; an opened
      file returns 1 whatever its lines say. */
    method LoadConfig(file: Option<seq<string>>) returns (loaded: int)
      requires file.Some? ==> forall i :: 0 <= i < |file.value| ==> FitsBuffers(file.value[i])
      modifies this
      ensures file.None? ==> loaded == 0 && Value() == Defaults()
      ensures file.Some? ==> loaded == 1 && Value() == ApplyLines(Defaults(), file.value)
    {
      SetDefaults();
      if file.None? {
        return 0;
      }
      ReadLines(file.value);
      return 1;
    }

    /** The loop of `load_config`: one line buffer, reused for every line
        of the file, in order. */
    method ReadLines(lines: seq<string>)
      requires forall i :: 0 <= i < |lines| ==> FitsBuffers(lines[i])
      modifies this
      ensures Value() == ApplyLines(old(Value()), lines)
    {
      var line := new char[LineSize];
      var i := 0;
      while i < |lines|
        invariant 0 <= i <= |lines|
        invariant Value() == ApplyLines(old(Value()), lines[..i])
      {
        assert lines[..i + 1][..i] == lines[..i];
        ReadLine(line, lines[i]);
        i := i + 1;
      }
      assert lines[..i] == lines;
    }
  
    /** One pass of `load_config`'s loop: `fgets` puts `raw` in the line
        buffer, which is trimmed, checked, split and stored. */
    method ReadLine(line: array<char>, raw: string)
      requires line.Length == LineSize && FitsBuffers(raw)
      modifies this, line
      ensures Value() == ApplyLine(old(Value()), raw)
    {
      CopyInto(line, raw);
      Trim(line);
      StoreLine(line);
    }

    /** The rest of `load_config`'s loop, on the trimmed line: skip a
        comment or an empty line, split at the first `=` and store what the
        key names. */
    method StoreLine(line: array<char>)
      requires Terminated(line) && SplitFits(CStr(line[..]))
      modifies this, line
      ensures Value() == ApplyEntry(old(Value()), LineEntry(old(CStr(line[..]))))
    {
      var text := CStr(line[..]);
      if |text| > 0 && line[0] != '#' {
        assert line[0] == text[0];
        var eq := IndexOf(text, '=');
        if eq.Some? {
          var key, val := SplitAt(line, eq.value);
          Store(key, val);
        }
      } else {
        assert |text| > 0 ==> line[0] == text[0];
      }
    }

    /** The assignments at the end of `load_config`'s loop. */
    method Store(key: string, val: string)
      modifies this
      ensures Value() == Assign(old(Value()), key, val)
    {
      if key == "port" {
        port := Atoi(val);
      } else if key == "root" {
        root := Truncate(val, RootSize - 1);
      } else if key == "index" {
        index := Truncate(val, IndexSize - 1);
      }
    }
  }

  /** The split of a trimmed line at its first `=`, at `e`: the `=` becomes a
      terminator, the two halves are copied into `key[64]` and `val[256]`,
      and each copy is trimmed. */
  method SplitAt(line: array<char>, e: nat) returns (key: string, val: string)
    requires Terminated(line)
    requires e < |CStr(line[..])| && CStr(line[..])[e] == '='
    requires e < KeySize && |CStr(line[..])| - e - 1 < ValSize
    modifies line
    ensures key == Trimmed(old(CStr(line[..]))[..e])
    ensures val == Trimmed(old(CStr(line[..]))[e + 1..])
  {
    ghost var text := CStr(line[..]);
    line[e] := '\0';
    assert line[..][..e] == text[..e];
    StrlenOfTerminated(line[..], text[..e]);
    assert line[e + 1..][..|text| - e - 1] == text[e + 1..];
    StrlenOfTerminated(line[e + 1..], text[e + 1..]);
    var k := new char[KeySize];
    var v := new char[ValSize];
    CopyInto(k, CStr(line[..]));
    CopyInto(v, CStr(line[e + 1..]));
    Trim(k);
    Trim(v);
    key, val := CStr(k[..]), CStr(v[..]);
  }
}
