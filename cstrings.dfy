/** Text helpers that mirror the C library calls the server makes on
    NUL-terminated strings. A Dafny `string` stands for the characters of a
    C string before its terminator; one `char` stands for one byte. */
module CStrings {

  datatype Option<+T> = None | Some(value: T)

  /** `isspace` in the "C" locale. */
  predicate IsSpace(c: char) {
    c == ' ' || c == '\t' || c == '\n' || c == '\U{000B}' || c == '\U{000C}' || c == '\r'
  }

  predicate AllSpace(s: string) {
    forall i :: 0 <= i < |s| ==> IsSpace(s[i])
  }

  /** A C string cannot hold its own terminator. */
  predicate NoNul(s: string) {
    forall i :: 0 <= i < |s| ==> s[i] != '\0'
  }

  predicate StartsWith(s: string, p: string) {
    |p| <= |s| && s[..|p|] == p
  }

  predicate OccursAt(s: string, t: string, i: nat) {
    i + |t| <= |s| && s[i..i + |t|] == t
  }

  /** `strchr`: the first position of `c` in `s`. */
  function IndexOf(s: string, c: char): (r: Option<nat>)
    ensures r.Some? ==> r.value < |s| && s[r.value] == c
    ensures r.Some? ==> forall j :: 0 <= j < r.value ==> s[j] != c
    ensures r.None? ==> forall j :: 0 <= j < |s| ==> s[j] != c
  {
    if |s| == 0 then None
    else if s[0] == c then Some(0)
    else match IndexOf(s[1..], c)
      case None => None
      case Some(i) => Some(i + 1)
  }

  /** `strrchr`: the last position of `c` in `s`. */
  function LastIndexOf(s: string, c: char): (r: Option<nat>)
    ensures r.Some? ==> r.value < |s| && s[r.value] == c
    ensures r.Some? ==> forall j :: r.value < j < |s| ==> s[j] != c
    ensures r.None? ==> forall j :: 0 <= j < |s| ==> s[j] != c
  {
    if |s| == 0 then None
    else if s[|s| - 1] == c then Some(|s| - 1)
    else LastIndexOf(s[..|s| - 1], c)
  }

  /** `strstr`: the first position at which `t` occurs in `s`. */
  function FindSub(s: string, t: string): (r: Option<nat>)
    ensures r.Some? ==> OccursAt(s, t, r.value)
    ensures r.Some? ==> forall j: nat :: j < r.value ==> !OccursAt(s, t, j)
    ensures r.None? ==> forall j: nat :: j <= |s| ==> !OccursAt(s, t, j)
  {
    if OccursAt(s, t, 0) then Some(0)
    else if |s| == 0 then None
    else
      ShiftOccurs(s, t);
      match FindSub(s[1..], t)
      case None => None
      case Some(i) => Some(i + 1)
  }

  /** An occurrence in `s[1..]` is an occurrence in `s`, one place later. */
  lemma ShiftOccurs(s: string, t: string)
    requires |s| > 0
    ensures forall j: nat :: 1 <= j ==> (OccursAt(s, t, j) <==> OccursAt(s[1..], t, j - 1))
  {
    forall j: nat | 1 <= j
      ensures OccursAt(s, t, j) <==> OccursAt(s[1..], t, j - 1)
    {
      if j + |t| <= |s| {
        assert s[1..][j - 1..j - 1 + |t|] == s[j..j + |t|];
      }
    }
  }

  /** `strlen` of a buffer: the position of its first NUL, or its length
      when it holds none. */
  function Strlen(s: seq<char>): (n: nat)
    ensures n <= |s| && NoNul(s[..n])
    ensures n < |s| ==> s[n] == '\0'
  {
    if |s| == 0 || s[0] == '\0' then 0
    else
      var n := 1 + Strlen(s[1..]);
      assert s[..n] == [s[0]] + s[1..][..n - 1];
      n
  }

  /** The C string a buffer holds: everything before the first NUL. */
  function CStr(s: seq<char>): (r: string)
    ensures NoNul(r) && StartsWith(s, r)
    ensures |r| == |s| || s[|r|] == '\0'
  {
    s[..Strlen(s)]
  }

  /** `s` without its leading white space. */
  function SkipSpace(s: string): (r: string)
    ensures |r| <= |s| && r == s[|s| - |r|..]
    ensures AllSpace(s[..|s| - |r|])
    ensures |r| > 0 ==> !IsSpace(r[0])
  {
    if |s| > 0 && IsSpace(s[0]) then SkipSpace(s[1..]) else s
  }

  /** The buffer holds a terminator. */
  predicate Terminated(a: array<char>)
    reads a
  {
    Strlen(a[..]) < a.Length
  }

  lemma StrlenOfTerminated(s: seq<char>, t: string)
    requires |t| < |s| && NoNul(t) && s[..|t|] == t && s[|t|] == '\0'
    ensures Strlen(s) == |t| && CStr(s) == t
  {
  }

  /** A prefix is recognised, and removing it leaves what followed. */
  lemma AfterPrefix(p: string, s: string)
    ensures StartsWith(p + s, p) && (p + s)[|p|..] == s
  {
    assert (p + s)[..|p|] == p;
  }

  /** At most `n` characters of `s`, as `snprintf` and `strncpy` leave in a
      bounded buffer. */
  function Truncate(s: string, n: nat): (r: string)
    ensures |r| <= n && StartsWith(s, r)
    ensures |s| <= n ==> r == s
    ensures |s| > n ==> |r| == n
  {
    if |s| <= n then s else s[..n]
  }

  /** `strchr` stops at the first `c`: in `x + y` with no `c` in `x` and `y`
      starting with `c`, it finds the start of `y`. */
  lemma {:induction false} IndexOfAfter(x: string, y: string, c: char)
    requires forall i :: 0 <= i < |x| ==> x[i] != c
    requires |y| > 0 && y[0] == c
    ensures IndexOf(x + y, c) == Some(|x|)
  {
    if |x| > 0 {
      assert (x + y)[1..] == x[1..] + y;
      IndexOfAfter(x[1..], y, c);
    }
  }
}
