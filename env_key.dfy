/** Reading the Google Maps key from the project's `.env` file
    (`inject_api_key` in ios/scripts/inject_env.rb): `File.readlines`, the
    first-match loop, `split('=', 2)` and `strip`. */
module EnvKey {
  import opened Wrappers

  const KeyPrefix: string := "GOOGLE_MAPS_API_KEY="

  /// File.readlines

  /** Length of the first line of `s`, its '\n' included when it has one. */
  function LineLength(s: string): (k: nat)
    requires s != []
    ensures 1 <= k <= |s|
    ensures forall i :: 0 <= i < k - 1 ==> s[i] != '\n'
    ensures k < |s| ==> s[k - 1] == '\n'
  {
    if s[0] == '\n' || |s| == 1 then 1 else 1 + LineLength(s[1..])
  }

  function Concat(lines: seq<string>): string {
    if lines == [] then [] else lines[0] + Concat(lines[1..])
  }

  /** `File.readlines`: the content cut after every '\n', each line keeping
      its terminator; the last line may lack one. */
  function Lines(content: string): (lines: seq<string>)
    ensures Concat(lines) == content
    ensures forall i :: 0 <= i < |lines| ==> lines[i] != []
    ensures forall i :: 0 <= i < |lines| - 1 ==> lines[i][|lines[i]| - 1] == '\n'
    ensures forall i, k :: 0 <= i < |lines| && 0 <= k < |lines[i]| - 1 ==> lines[i][k] != '\n'
    decreases |content|
  {
    if content == [] then []
    else
      var k := LineLength(content);
      assert content == content[..k] + content[k..];
      [content[..k]] + Lines(content[k..])
  }

  /// String#strip

  /** Ruby's whitespace for `strip`: NUL, tab, line feed, vertical tab, form
      feed, carriage return and space. */
  predicate IsRubySpace(c: char) {
    c == '\0' || c == '\t' || c == '\n' || c == '\U{000B}' || c == '\U{000C}' || c == '\r' || c == ' '
  }

  /** The first position from `i` on that is not whitespace (`|s|` when
      there is none). */
  function LeadingSpaceEnd(s: string, i: nat): (a: nat)
    requires i <= |s|
    ensures i <= a <= |s|
    ensures forall k :: i <= k < a ==> IsRubySpace(s[k])
    ensures a < |s| ==> !IsRubySpace(s[a])
    decreases |s| - i
  {
    if i < |s| && IsRubySpace(s[i]) then LeadingSpaceEnd(s, i + 1) else i
  }

  /** The start of the whitespace that ends `s[a..j]` (`j` when there is none). */
  function TrailingSpaceStart(s: string, a: nat, j: nat): (b: nat)
    requires a <= j <= |s|
    ensures a <= b <= j
    ensures forall k :: b <= k < j ==> IsRubySpace(s[k])
    ensures a < b ==> !IsRubySpace(s[b - 1])
    decreases j - a
  {
    if a < j && IsRubySpace(s[j - 1]) then TrailingSpaceStart(s, a, j - 1) else j
  }

  /** `String#strip`: the infix left after removing whitespace at both ends. */
  function Strip(s: string): (r: string)
    ensures r == [] || (!IsRubySpace(r[0]) && !IsRubySpace(r[|r| - 1]))
    ensures r == [] <==> forall k :: 0 <= k < |s| ==> IsRubySpace(s[k])
    ensures (s == [] || (!IsRubySpace(s[0]) && !IsRubySpace(s[|s| - 1]))) ==> r == s
    // r is the infix of s that starts after its leading whitespace, and only
    // whitespace lies outside it
    ensures LeadingSpaceEnd(s, 0) + |r| <= |s|
    ensures r == s[LeadingSpaceEnd(s, 0)..LeadingSpaceEnd(s, 0) + |r|]
    ensures IsSpaceOutside(s, LeadingSpaceEnd(s, 0), LeadingSpaceEnd(s, 0) + |r|)
  {
    var a := LeadingSpaceEnd(s, 0);
    var b := TrailingSpaceStart(s, a, |s|);
    assert a < |s| ==> a < b;
    s[a..b]
  }

  /** Every character of `s` before `a` and from `b` on is whitespace. */
  predicate IsSpaceOutside(s: string, a: nat, b: nat)
    requires a <= b <= |s|
  {
    (forall k :: 0 <= k < a ==> IsRubySpace(s[k])) && forall k :: b <= k < |s| ==> IsRubySpace(s[k])
  }

  /** `s.split(sep, 2)[1]`: the text after the first `sep`, None without one. */
  function AfterFirst(s: string, sep: char): (r: Option<string>)
    ensures r.None? <==> forall k :: 0 <= k < |s| ==> s[k] != sep
    ensures r.Some? ==> |r.value| < |s| && r.value == s[|s| - |r.value|..] && s[|s| - |r.value| - 1] == sep
    ensures r.Some? ==> forall k :: 0 <= k < |s| - |r.value| - 1 ==> s[k] != sep
  {
    if s == [] then None
    else if s[0] == sep then Some(s[1..])
    else AfterFirst(s[1..], sep)
  }

  /** The value of a key line: everything after its first '=' (later '='
      characters included), stripped. */
  function KeyValue(line: string): (value: string)
    requires KeyPrefix <= line
    ensures value == Strip(line[|KeyPrefix|..])
  {
    var after := AfterFirst(line, '=');
    assert line[|KeyPrefix| - 1] == '=';
    assert forall k :: 0 <= k < |KeyPrefix| - 1 ==> line[k] == KeyPrefix[k] && line[k] != '=';
    Strip(after.value)
  }

  /** The key as the loop leaves it: from the first line that starts with the prefix. */
  function FirstKey(lines: seq<string>): Option<string> {
    if lines == [] then None
    else if KeyPrefix <= lines[0] then Some(KeyValue(lines[0]))
    else FirstKey(lines[1..])
  }

  /** First match wins: the key comes from line `i` when it is the first with
      the prefix, whatever the later lines hold. */
  lemma {:induction false} FirstKeyIsFirstMatch(lines: seq<string>, i: nat)
    requires i < |lines| && KeyPrefix <= lines[i]
    requires forall j :: 0 <= j < i ==> !(KeyPrefix <= lines[j])
    ensures FirstKey(lines) == Some(KeyValue(lines[i]))
    decreases i
  {
    if i > 0 {
      assert !(KeyPrefix <= lines[0]);
      forall j | 0 <= j < i - 1
        ensures !(KeyPrefix <= lines[1..][j])
      {
        assert lines[1..][j] == lines[j + 1];
      }
      assert lines[1..][i - 1] == lines[i];
      FirstKeyIsFirstMatch(lines[1..], i - 1);
    }
  }

  /** No key at all exactly when no line starts with the prefix. */
  lemma {:induction false} FirstKeyAbsent(lines: seq<string>)
    ensures FirstKey(lines).None? <==> forall j :: 0 <= j < |lines| ==> !(KeyPrefix <= lines[j])
    decreases |lines|
  {
    if lines != [] {
      FirstKeyAbsent(lines[1..]);
      assert forall j :: 1 <= j < |lines| ==> lines[j] == lines[1..][j - 1];
    }
  }

  /** The loop over `File.readlines(env_file)` that takes the first key line and breaks. */
  method ExtractApiKey(lines: seq<string>) returns (apiKey: Option<string>)
    ensures apiKey == FirstKey(lines)
  {
    apiKey := None;
    var i := 0;
    while i < |lines|
      invariant 0 <= i <= |lines|
      invariant FirstKey(lines[i..]) == FirstKey(lines)
    {
      if KeyPrefix <= lines[i] {
        apiKey := Some(KeyValue(lines[i]));
        break;
      }
      assert lines[i..][1..] == lines[i + 1..];
      i := i + 1;
    }
  }
}
