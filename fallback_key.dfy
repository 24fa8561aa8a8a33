/** The key substitution of `inject_api_key` (ios/scripts/inject_env.rb):
    `content.gsub!(/("AIzaSy[^"]+")/, "\"#{api_key}\"")`. The regular
    expression is modelled by what it matches; the scan is Ruby's, leftmost
    first and resuming after each match. */
module FallbackKey {

  /** The opening of a fallback key literal: a quote and "AIzaSy". */
  const LiteralOpen: string := "\"AIzaSy"

  /** `t` starts with `LiteralOpen`, checked character by character. */
  predicate OpensLiteral(t: string) {
    |t| >= 7 && t[0] == '"' && t[1] == 'A' && t[2] == 'I' && t[3] == 'z' && t[4] == 'a' && t[5] == 'S' && t[6] == 'y'
  }

  lemma OpensLiteralIsPrefix(t: string)
    ensures OpensLiteral(t) <==> LiteralOpen <= t
  {
    if LiteralOpen <= t {
      assert t[..7] == LiteralOpen;
    }
  }

  /** A text matched by `"AIzaSy[^"]+"`: the opening, one or more characters
      other than a quote, and a closing quote. */
  predicate IsFallbackLiteral(t: string) {
    && |t| >= |LiteralOpen| + 2
    && OpensLiteral(t)
    && t[|t| - 1] == '"'
    && forall k :: 1 <= k < |t| - 1 ==> t[k] != '"'
  }

  /** The replacement text for a key. */
  function Quoted(key: string): string {
    "\"" + key + "\""
  }

  /** A key whose replacement is itself a fallback literal, as a Google Maps key is. */
  predicate IsFallbackKey(key: string) {
    IsFallbackLiteral(Quoted(key))
  }

  /** Length of the longest prefix of `s` without a quote. */
  function QuoteFreeRun(s: string): (n: nat)
    ensures n <= |s|
    ensures forall k :: 0 <= k < n ==> s[k] != '"'
    ensures n < |s| ==> s[n] == '"'
  {
    if s == [] || s[0] == '"' then 0 else 1 + QuoteFreeRun(s[1..])
  }

  /** Position just after the first quote at or after `i`, 0 when there is none. */
  function ClosingAfter(s: string, i: nat): (e: nat)
    requires i <= |s|
    ensures e == 0 || i < e <= |s|
    decreases |s| - i
  {
    if i == |s| then 0 else if s[i] == '"' then i + 1 else ClosingAfter(s, i + 1)
  }

  lemma {:induction false} ClosingAfterSpec(s: string, i: nat)
    requires i <= |s|
    ensures var e := ClosingAfter(s, i);
            && (e == 0 ==> forall j :: i <= j < |s| ==> s[j] != '"')
            && (e > 0 ==> s[e - 1] == '"' && forall j :: i <= j < e - 1 ==> s[j] != '"')
    decreases |s| - i
  {
    if i < |s| && s[i] != '"' {
      ClosingAfterSpec(s, i + 1);
    }
  }

  /** Length of the match of the pattern at the start of `s`, 0 when it does
      not match there: after the opening, the text up to the next quote,
      which must not come straight after the opening. */
  function LiteralLen(s: string): (n: nat)
    ensures n == 0 || |LiteralOpen| + 2 <= n <= |s|
  {
    if OpensLiteral(s) then
      var e := ClosingAfter(s, |LiteralOpen|);
      if e > |LiteralOpen| + 1 then e else 0
    else 0
  }

  /** The pattern matches at the start of `s` exactly with the length `LiteralLen(s)`. */
  lemma LiteralLenExact(s: string, n: nat)
    requires n <= |s|
    ensures IsFallbackLiteral(s[..n]) <==> 0 < n && n == LiteralLen(s)
  {
    var t := s[..n];
    if IsFallbackLiteral(t) {
      assert OpensLiteral(s) by { assert t[0] == s[0] && t[1] == s[1] && t[2] == s[2] && t[3] == s[3] && t[4] == s[4] && t[5] == s[5] && t[6] == s[6]; }
      ClosingAfterSpec(s, |LiteralOpen|);
      var e := ClosingAfter(s, |LiteralOpen|);
      assert s[n - 1] == t[n - 1];
      assert forall j :: 1 <= j < n - 1 ==> s[j] == t[j];
      assert e == n;
    }
    if 0 < n && n == LiteralLen(s) {
      ClosingAfterSpec(s, |LiteralOpen|);
      assert forall j :: 0 <= j < n ==> t[j] == s[j];
    }
  }

  /** A piece of the scanned text: a character left alone, or a match. */
  datatype Piece = Kept(c: char) | Replaced(literal: string)

  function PieceText(p: Piece): string {
    match p
    case Kept(c) => [c]
    case Replaced(t) => t
  }

  function Flatten(ps: seq<Piece>): string {
    if ps == [] then [] else PieceText(ps[0]) + Flatten(ps[1..])
  }

  /** The scan of `gsub`: at each position try the pattern; on a match take it
      whole and resume after it, otherwise keep one character. The pieces put
      back together give the text, every replaced piece is a match, and a
      piece is a match exactly when the text from its position on starts
      with one, which it then takes whole. */
  function Scan(s: string): (ps: seq<Piece>)
    ensures Flatten(ps) == s
    ensures forall i :: 0 <= i < |ps| && ps[i].Replaced? ==> IsFallbackLiteral(ps[i].literal)
    ensures forall i :: 0 <= i < |ps| ==> (ps[i].Kept? <==> LiteralLen(Flatten(ps[i..])) == 0)
    ensures forall i :: 0 <= i < |ps| && ps[i].Replaced? ==> |ps[i].literal| == LiteralLen(Flatten(ps[i..]))
    decreases |s|
  {
    if s == [] then []
    else
      var n := LiteralLen(s);
      if n > 0 then
        LiteralLenExact(s, n);
        assert s == s[..n] + s[n..];
        ScanSuffixes(Replaced(s[..n]), Scan(s[n..]));
        [Replaced(s[..n])] + Scan(s[n..])
      else
        assert s == [s[0]] + s[1..];
        ScanSuffixes(Kept(s[0]), Scan(s[1..]));
        [Kept(s[0])] + Scan(s[1..])
  }

  lemma ScanSuffixes(p: Piece, tail: seq<Piece>)
    ensures Flatten([p] + tail) == PieceText(p) + Flatten(tail)
    ensures forall i :: 1 <= i <= |tail| ==> ([p] + tail)[i..] == tail[i - 1..]
  {
    assert ([p] + tail)[1..] == tail;
  }

  function Render(ps: seq<Piece>, key: string): string {
    if ps == [] then []
    else (match ps[0] case Kept(c) => [c] case Replaced(_) => Quoted(key)) + Render(ps[1..], key)
  }

  /** The text after `gsub`, scanned as `Scan` does: every match replaced by
      the quoted key, every other character kept. */
  function Substituted(s: string, key: string): string
    decreases |s|
  {
    if s == [] then []
    else
      var n := LiteralLen(s);
      if n > 0 then Quoted(key) + Substituted(s[n..], key)
      else [s[0]] + Substituted(s[1..], key)
  }

  /** The substitution is the scan with each match rendered as the quoted key. */
  lemma {:induction false} SubstitutedRendersScan(s: string, key: string)
    ensures Substituted(s, key) == Render(Scan(s), key)
    decreases |s|
  {
    if s != [] {
      var n := LiteralLen(s);
      var ps := Scan(s);
      if n > 0 {
        SubstitutedRendersScan(s[n..], key);
        assert ps[1..] == Scan(s[n..]);
      } else {
        SubstitutedRendersScan(s[1..], key);
        assert ps[1..] == Scan(s[1..]);
      }
    }
  }

  /** With no match anywhere, the text comes out as it went in. */
  lemma {:induction false} SubstitutedWithoutMatch(s: string, key: string)
    requires forall i :: 0 <= i < |s| ==> LiteralLen(s[i..]) == 0
    ensures Substituted(s, key) == s
    decreases |s|
  {
    if s != [] {
      assert s[0..] == s;
      forall i | 0 <= i < |s[1..]| ensures LiteralLen(s[1..][i..]) == 0 {
        assert s[1..][i..] == s[i + 1..];
      }
      SubstitutedWithoutMatch(s[1..], key);
    }
  }

  /** Cutting a text at `k` is cutting its tail at `k - 1`, after the first character. */
  lemma SplitAfterFirst(s: string, k: nat)
    requires 1 <= k <= |s|
    ensures s[..k] == [s[0]] + s[1..][..k - 1]
    ensures s[1..][k - 1..] == s[k..]
  {
  }

  lemma AppendAssoc(a: string, b: string, c: string)
    ensures (a + b) + c == a + (b + c)
  {
  }

  /** A character where no match starts is kept. */
  lemma SubstitutedAtKept(s: string, key: string)
    requires s != [] && LiteralLen(s) == 0
    ensures Substituted(s, key) == [s[0]] + Substituted(s[1..], key)
  {
  }

  /** A match is replaced by the quoted key and the scan resumes after it. */
  lemma SubstitutedAtMatch(s: string, key: string)
    requires LiteralLen(s) > 0
    ensures Substituted(s, key) == Quoted(key) + Substituted(s[LiteralLen(s)..], key)
  {
  }

  /** A character other than a quote never starts a match, so it is kept. */
  lemma SubstitutedAtOther(s: string, key: string)
    requires s != [] && s[0] != '"'
    ensures Substituted(s, key) == [s[0]] + Substituted(s[1..], key)
  {
    assert !OpensLiteral(s);
  }

  /** Quote-free text in front passes through unchanged. */
  lemma {:induction false} SubstitutedQuoteFreeAppend(a: string, b: string, key: string)
    requires forall i :: 0 <= i < |a| ==> a[i] != '"'
    ensures Substituted(a + b, key) == a + Substituted(b, key)
    decreases |a|
  {
    if a == [] {
      assert a + b == b;
    } else {
      var ab := a + b;
      SubstitutedAtOther(ab, key);
      assert ab[1..] == a[1..] + b;
      SubstitutedQuoteFreeAppend(a[1..], b, key);
      AppendAssoc([a[0]], a[1..], Substituted(b, key));
      assert [a[0]] + a[1..] == a;
    }
  }

  /** At a quote the output starts with a quote, whether or not a match starts there. */
  lemma SubstitutedAtQuote(s: string, key: string)
    requires s != [] && s[0] == '"'
    ensures Substituted(s, key) != [] && Substituted(s, key)[0] == '"'
  {
  }

  /** Text before the first quote is never part of a match: it comes out
      unchanged, and the output has a quote where the input's first one was. */
  lemma {:induction false} SubstitutedKeepsQuoteFreePrefix(s: string, key: string)
    ensures var k := QuoteFreeRun(s);
            && Substituted(s, key) == s[..k] + Substituted(s[k..], key)
            && (k < |s| ==> Substituted(s[k..], key) != [] && Substituted(s[k..], key)[0] == '"')
    decreases |s|
  {
    var k := QuoteFreeRun(s);
    if s != [] && s[0] != '"' {
      var t := s[1..];
      SubstitutedKeepsQuoteFreePrefix(t, key);
      assert k == QuoteFreeRun(t) + 1;
      SplitAfterFirst(s, k);
      SubstitutedAtOther(s, key);
      AppendAssoc([s[0]], t[..k - 1], Substituted(s[k..], key));
    } else {
      assert k == 0;
      assert s[..k] == [] && s[k..] == s;
      assert s[..k] + Substituted(s[k..], key) == Substituted(s, key);
      if s != [] {
        SubstitutedAtQuote(s, key);
      }
    }
  }

  /** Without a quote the text comes out unchanged. */
  lemma SubstitutedQuoteFree(s: string, key: string)
    requires QuoteFreeRun(s) == |s|
    ensures Substituted(s, key) == s
  {
    SubstitutedKeepsQuoteFreePrefix(s, key);
    assert s[..|s|] == s && s[|s|..] == [];
  }

  lemma SubstitutedAfterReplacement(key: string, t: string)
    requires IsFallbackKey(key)
    ensures Substituted(Quoted(key) + t, key) == Quoted(key) + Substituted(t, key)
  {
    var q := Quoted(key);
    var s := q + t;
    assert s[..|q|] == q;
    LiteralLenExact(s, |q|);
    assert s[|q|..] == t;
  }

  /** A match at the start of the output, in front of which the input's first
      character was kept, is a match of the input as well. */
  lemma MatchAfterKeptChar(s: string, key: string, m: nat)
    requires s != []
    requires 0 < m <= |[s[0]] + Substituted(s[1..], key)|
    requires IsFallbackLiteral(([s[0]] + Substituted(s[1..], key))[..m])
    ensures m <= |s| && IsFallbackLiteral(s[..m])
  {
    var t := s[1..];
    var k := QuoteFreeRun(t);
    var u := [s[0]] + Substituted(t, key);
    KeptCharOutput(s, key);
    SameLiteral(s, u, k, m);
  }

  /** The output after a kept first character: that character, the input's
      quote-free run unchanged, then a quote exactly where the input has one,
      or nothing more when the input has none. */
  lemma KeptCharOutput(s: string, key: string)
    requires s != []
    ensures var k := QuoteFreeRun(s[1..]);
            var u := [s[0]] + Substituted(s[1..], key);
            && k + 1 <= |s| && k + 1 <= |u| && u[0] == s[0]
            && (forall i :: 1 <= i <= k ==> u[i] == s[i] && s[i] != '"')
            && (k + 1 == |s| ==> |u| == k + 1)
            && (k + 1 < |s| ==> s[k + 1] == '"' && k + 1 < |u| && u[k + 1] == '"')
  {
    var t := s[1..];
    var k := QuoteFreeRun(t);
    var rest := Substituted(t[k..], key);
    SubstitutedKeepsQuoteFreePrefix(t, key);
    var u := [s[0]] + (t[..k] + rest);
    AppendAssoc([s[0]], t[..k], rest);
    SplitAfterFirst(s, k + 1);
    assert u == s[..k + 1] + rest;
    if k == |t| {
      assert t[k..] == [];
    }
  }

  /** Two texts that agree up to the first quote after their first character,
      and both have that quote, have the same fallback literal at their start. */
  lemma SameLiteral(s: string, u: string, k: nat, m: nat)
    requires k + 1 <= |s| && k + 1 <= |u| && u[0] == s[0]
    requires forall i :: 1 <= i <= k ==> u[i] == s[i] && s[i] != '"'
    requires k + 1 == |s| ==> |u| == k + 1
    requires k + 1 < |s| ==> s[k + 1] == '"' && k + 1 < |u| && u[k + 1] == '"'
    requires 0 < m <= |u| && IsFallbackLiteral(u[..m])
    ensures m == k + 2 && s[..m] == u[..m]
  {
    var lit := u[..m];
    assert u[m - 1] == lit[m - 1] == '"';
    assert forall i :: 1 <= i < m - 1 ==> u[i] == lit[i] != '"';
    assert m == k + 2;
    assert forall i :: 0 <= i < m ==> s[..m][i] == u[..m][i];
  }

  /** A position where the input has no match stays without one in the output. */
  lemma NoNewMatchAtKeptChar(s: string, key: string)
    requires s != [] && LiteralLen(s) == 0
    ensures LiteralLen([s[0]] + Substituted(s[1..], key)) == 0
  {
    var u := [s[0]] + Substituted(s[1..], key);
    var m := LiteralLen(u);
    if m > 0 {
      LiteralLenExact(u, m);
      MatchAfterKeptChar(s, key, m);
      LiteralLenExact(s, m);
      assert false;
    }
  }

  /** For a key that itself has the fallback shape, substituting twice gives
      what substituting once gave: running the script again changes nothing. */
  lemma {:induction false} SubstitutedIdempotent(s: string, key: string)
    requires IsFallbackKey(key)
    ensures Substituted(Substituted(s, key), key) == Substituted(s, key)
    decreases |s|
  {
    if s != [] {
      var n := LiteralLen(s);
      if n > 0 {
        SubstitutedIdempotent(s[n..], key);
        SubstitutedAfterReplacement(key, Substituted(s[n..], key));
      } else {
        SubstitutedIdempotent(s[1..], key);
        var u := [s[0]] + Substituted(s[1..], key);
        NoNewMatchAtKeptChar(s, key);
        assert u[1..] == Substituted(s[1..], key);
      }
    }
  }

  /** The counterexample text is a fallback literal followed by a tail that
      reads like one without its opening quote. */
  const CounterLead: string := "\"AIzaSyA\""
  const CounterTail: string := "AIzaSyB\""

  lemma CounterTailUnchanged()
    ensures Substituted(CounterTail, "k") == CounterTail
  {
    var a := "AIzaSyB";
    var q := "\"";
    assert a + q == CounterTail;
    SubstitutedQuoteFreeAppend(a, q, "k");
    SubstitutedAtKept(q, "k");
  }

  lemma CounterLeadingMatch()
    ensures LiteralLen(CounterLead + CounterTail) == |CounterLead|
  {
    var s := CounterLead + CounterTail;
    assert ClosingAfter(s, 8) == 9;
  }

  /** The first pass replaces the leading literal and keeps the tail. */
  lemma CounterFirstPass()
    ensures Substituted(CounterLead + CounterTail, "k") == Quoted("k") + CounterTail
  {
    CounterLeadingMatch();
    SubstitutedAtMatch(CounterLead + CounterTail, "k");
    CounterTailUnchanged();
  }

  /** After the first character of the first pass's output come the key and a
      quote that, with the tail, forms a new literal. */
  lemma CounterSecondText()
    ensures (Quoted("k") + CounterTail)[1..] == "k" + ("\"" + CounterTail)
  {
  }

  /** The second pass replaces that new literal: its output has 5 characters. */
  lemma CounterSecondPass()
    ensures |Substituted(Quoted("k") + CounterTail, "k")| == 5
  {
    var key := "k";
    var once := Quoted(key) + CounterTail;
    var lit := "\"" + CounterTail;
    assert !OpensLiteral(once);
    SubstitutedAtKept(once, key);
    CounterSecondText();
    SubstitutedQuoteFreeAppend("k", lit, key);
    assert ClosingAfter(lit, 8) == 9;
    SubstitutedAtMatch(lit, key);
    assert lit[9..] == [];
  }

  /** Idempotence needs a key of fallback shape: with the key "k", the text
      `"AIzaSyA"AIzaSyB"` becomes `"k"AIzaSyB"`, and a second run turns that
      into `"k"k"`, changing the file again. */
  lemma SubstitutedNotIdempotentForOtherKeys()
    ensures !IsFallbackKey("k")
    ensures var s := CounterLead + CounterTail;
            Substituted(Substituted(s, "k"), "k") != Substituted(s, "k")
  {
    CounterFirstPass();
    CounterSecondPass();
  }

  /** `content.gsub!(...)`: the scan over the content, building the new text. */
  method ReplaceFallbackKeys(content: string, key: string) returns (result: string)
    ensures result == Substituted(content, key)
  {
    result := [];
    var rest := content;
    while rest != []
      invariant result + Substituted(rest, key) == Substituted(content, key)
      decreases |rest|
    {
      var n := LiteralLen(rest);
      if n > 0 {
        assert Substituted(rest, key) == Quoted(key) + Substituted(rest[n..], key);
        result := result + Quoted(key);
        rest := rest[n..];
      } else {
        assert Substituted(rest, key) == [rest[0]] + Substituted(rest[1..], key);
        result := result + [rest[0]];
        rest := rest[1..];
      }
    }
  }
}
