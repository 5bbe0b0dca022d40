/** The parsing of the HTTP upgrade request's headers in ws_server.py
    (`parse_headers`), on the request text after decoding. */
module WsHeaders {
  /** `str.split("\r\n")`: the pieces between the separators, left to right. */
  function SplitLines(s: string): (r: seq<string>)
    ensures |r| >= 1 && r[0] <= s
    ensures JoinLines(r) == s
    ensures forall k :: 0 <= k < |r| ==> NoBreak(r[k])
    decreases |s|
  {
    if |s| < 2 then [s]
    else if s[0] == '\r' && s[1] == '\n' then [""] + SplitLines(s[2..])
    else
      var t := SplitLines(s[1..]);
      [[s[0]] + t[0]] + t[1..]
  }

  /** The inverse of the split: the pieces glued back with "\r\n". */
  function JoinLines(r: seq<string>): string
  {
    if r == [] then "" else if |r| == 1 then r[0] else r[0] + "\r\n" + JoinLines(r[1..])
  }

  /** `s` contains no "\r\n". */
  predicate NoBreak(s: string)
  {
    forall i :: 0 <= i < |s| - 1 ==> !(s[i] == '\r' && s[i + 1] == '\n')
  }

  /** The characters `str.strip()` removes (Python's `str.isspace`). */
  predicate IsSpace(c: char)
  {
    var n := c as int;
    || 0x09 <= n <= 0x0D || 0x1C <= n <= 0x20 || n == 0x85 || n == 0xA0 || n == 0x1680
    || 0x2000 <= n <= 0x200A || n == 0x2028 || n == 0x2029 || n == 0x202F || n == 0x205F || n == 0x3000
  }

  /** `s.strip()`: `s` without its leading and trailing white space. What
      is kept is the slice of `s` from its first non-space character to its
      last one; everything cut off on either side is white space. */
  function Strip(s: string): (r: string)
    ensures var i := Leading(s);
      i + |r| <= |s| && r == s[i..i + |r|]
      && (forall k :: 0 <= k < i ==> IsSpace(s[k]))
      && (forall k :: i + |r| <= k < |s| ==> IsSpace(s[k]))
    ensures r != [] ==> !IsSpace(r[0]) && !IsSpace(r[|r| - 1])
  {
    var i := Leading(s);
    var t := s[i..];
    var j := Trailing(t);
    assert forall k :: i + j <= k < |s| ==> s[k] == t[k - i];
    assert j > 0 ==> t[..j][0] == t[0];
    t[..j]
  }

  /** The number of white space characters `s` starts with. */
  function Leading(s: string): (i: nat)
    ensures i <= |s|
    ensures forall k :: 0 <= k < i ==> IsSpace(s[k])
    ensures i < |s| ==> !IsSpace(s[i])
  {
    if s != [] && IsSpace(s[0]) then
      var i' := Leading(s[1..]);
      assert forall k :: 1 <= k < i' + 1 ==> s[k] == s[1..][k - 1];
      i' + 1
    else 0
  }

  /** The length of `s` without the white space it ends with. */
  function Trailing(s: string): (j: nat)
    ensures j <= |s|
    ensures forall k :: j <= k < |s| ==> IsSpace(s[k])
    ensures j > 0 ==> !IsSpace(s[j - 1])
  {
    if s != [] && IsSpace(s[|s| - 1]) then
      var j := Trailing(s[..|s| - 1]);
      assert forall k :: j <= k < |s| - 1 ==> s[k] == s[..|s| - 1][k];
      j
    else |s|
  }

  /** `s.lower()` on ASCII letters: every 'A'-'Z' becomes its lower case. */
  function Lower(s: string): (r: string)
    ensures |r| == |s|
    ensures forall i :: 0 <= i < |s| ==> r[i] == if 'A' <= s[i] <= 'Z' then (s[i] as int + 32) as char else s[i]
    ensures forall i :: 0 <= i < |r| ==> !('A' <= r[i] <= 'Z')
  {
    seq(|s|, i requires 0 <= i < |s| => if 'A' <= s[i] <= 'Z' then (s[i] as int + 32) as char else s[i])
  }

  /** The position of the first ':' of a line that has one. */
  function FirstColon(ln: string): (i: nat)
    requires ':' in ln
    ensures i < |ln| && ln[i] == ':' && ':' !in ln[..i]
  {
    if ln[0] == ':' then 0
    else
      assert ln == [ln[0]] + ln[1..];
      var j := FirstColon(ln[1..]);
      assert ln[..j + 1] == [ln[0]] + ln[1..][..j];
      j + 1
  }

  /** `ln.split(":", 1)` with the name stripped and lower-cased. */
  function Name(ln: string): string
    requires ':' in ln
  {
    Lower(Strip(ln[..FirstColon(ln)]))
  }

  /** The stripped text after the first ':'. */
  function Value(ln: string): string
    requires ':' in ln
  {
    Strip(ln[FirstColon(ln) + 1..])
  }

  /** The dictionary the loop of `parse_headers` builds from header lines
      `lines`, taken in order. */
  function Headers(lines: seq<string>): map<string, string>
  {
    if lines == [] then map[]
    else
      var m := Headers(lines[..|lines| - 1]);
      var ln := lines[|lines| - 1];
      if ':' in ln then m[Name(ln) := Value(ln)] else m
  }

  /** A name is a key of the dictionary exactly when some line with a ':'
      carries it, and its value is that of the last such line. */
  lemma {:induction false} HeadersLastWins(lines: seq<string>, j: nat)
    requires j < |lines| && ':' in lines[j]
    requires forall k :: j < k < |lines| && ':' in lines[k] ==> Name(lines[k]) != Name(lines[j])
    ensures Name(lines[j]) in Headers(lines) && Headers(lines)[Name(lines[j])] == Value(lines[j])
  {
    if j < |lines| - 1 {
      var init := lines[..|lines| - 1];
      assert init[j] == lines[j];
      forall k | j < k < |init| && ':' in init[k] ensures Name(init[k]) != Name(init[j]) {
        assert init[k] == lines[k];
      }
      HeadersLastWins(init, j);
    }
  }

  /** Every key of the dictionary comes from some line with a ':'. */
  lemma {:induction false} HeadersFromLines(lines: seq<string>, name: string)
    requires name in Headers(lines)
    ensures exists j :: 0 <= j < |lines| && ':' in lines[j] && Name(lines[j]) == name
  {
    var init := lines[..|lines| - 1];
    var ln := lines[|lines| - 1];
    if ':' in ln && Name(ln) == name {
    } else {
      HeadersFromLines(init, name);
      var j :| 0 <= j < |init| && ':' in init[j] && Name(init[j]) == name;
      assert lines[j] == init[j];
    }
  }

  /** One more line extends the dictionary by that line's entry. */
  lemma HeadersStep(lines: seq<string>, k: nat)
    requires k < |lines|
    ensures Headers(lines[..k + 1]) ==
      if ':' in lines[k] then Headers(lines[..k])[Name(lines[k]) := Value(lines[k])] else Headers(lines[..k])
  {
    assert lines[..k + 1][..k] == lines[..k];
  }

  /** `parse_headers(data)` for the request text `text`: the request line
      as it stands, and the dictionary of the header lines after it. */
  method ParseHeaders(text: string) returns (line: string, headers: map<string, string>)
    ensures line == SplitLines(text)[0] && NoBreak(line) && line <= text
    ensures headers == Headers(SplitLines(text)[1..])
  {
    var lines := SplitLines(text);
    headers := map[];
    var rest := lines[1..];
    var k := 0;
    while k < |rest|
      invariant 0 <= k <= |rest|
      invariant headers == Headers(rest[..k])
    {
      var ln := rest[k];
      HeadersStep(rest, k);
      if ':' in ln {
        var i := FirstColon(ln);
        var key, v := ln[..i], ln[i + 1..];
        headers := headers[Lower(Strip(key)) := Strip(v)];
      }
      k := k + 1;
    }
    assert rest[..k] == rest;
    line := lines[0];
  }
}
