/** Canonical spelling of predicates and node types: Unicode white space, letter case of ASCII letters. */
module Text {

  /** The characters with the Unicode property White_Space. */
  predicate IsSpace(c: char) {
    var n := c as int;
    || 0x9 <= n <= 0xD || n == 0x20 || n == 0x85 || n == 0xA0 || n == 0x1680
    || 0x2000 <= n <= 0x200A || n == 0x2028 || n == 0x2029 || n == 0x202F || n == 0x205F || n == 0x3000
  }

  function Lower(c: char): char {
    if 'A' <= c <= 'Z' then (c as int + 32) as char else c
  }

  function LowerAll(s: string): (r: string)
    ensures |r| == |s|
    ensures forall i :: 0 <= i < |s| ==> r[i] == Lower(s[i])
  {
    seq(|s|, i requires 0 <= i < |s| => Lower(s[i]))
  }

  function TrimLeft(s: string): string {
    if s != "" && IsSpace(s[0]) then TrimLeft(s[1..]) else s
  }

  function TrimRight(s: string): string {
    if s != "" && IsSpace(s[|s| - 1]) then TrimRight(s[..|s| - 1]) else s
  }

  function NormalizeNodeType(s: string): string {
    LowerAll(TrimRight(TrimLeft(s)))
  }

  /** Length of the leading run of non-space characters. */
  function WordLength(s: string): (n: nat)
    ensures n <= |s|
    ensures forall i :: 0 <= i < n ==> !IsSpace(s[i])
    ensures n < |s| ==> IsSpace(s[n])
  {
    if s == "" || IsSpace(s[0]) then 0 else 1 + WordLength(s[1..])
  }

  function Words(s: string): seq<string>
    decreases |s|
  {
    if s == "" then []
    else if IsSpace(s[0]) then Words(s[1..])
    else [s[..WordLength(s)]] + Words(s[WordLength(s)..])
  }

  function Join(words: seq<string>): string {
    if words == [] then ""
    else if |words| == 1 then words[0]
    else words[0] + "_" + Join(words[1..])
  }

  /** Lower-cased words of `raw` joined by underscores. */
  function NormalizePredicate(raw: string): string {
    Join(Words(LowerAll(TrimRight(TrimLeft(raw)))))
  }

  ghost predicate Plain(s: string) {
    forall i :: 0 <= i < |s| ==> !IsSpace(s[i]) && Lower(s[i]) == s[i]
  }

  lemma {:induction false} WordsArePlain(s: string)
    requires forall i :: 0 <= i < |s| ==> Lower(s[i]) == s[i]
    ensures forall j :: 0 <= j < |Words(s)| ==> Plain(Words(s)[j])
    decreases |s|
  {
    if s != "" {
      WordsArePlain(if IsSpace(s[0]) then s[1..] else s[WordLength(s)..]);
    }
  }

  lemma {:induction false} JoinIsPlain(words: seq<string>)
    requires forall j :: 0 <= j < |words| ==> Plain(words[j])
    ensures Plain(Join(words))
  {
    if |words| > 1 {
      JoinIsPlain(words[1..]);
    }
  }

  lemma PlainIsFixed(s: string)
    requires Plain(s)
    ensures NormalizePredicate(s) == s
  {
    assert LowerAll(s) == s;
    if s != "" {
      assert s[..WordLength(s)] == s;
      assert Words(s) == [s];
    }
  }

  /** Edges are re-normalised whenever a row is read back, so the spelling must be a fixed point. */
  lemma NormalizePredicateIdempotent(raw: string)
    ensures NormalizePredicate(NormalizePredicate(raw)) == NormalizePredicate(raw)
  {
    var lowered := LowerAll(TrimRight(TrimLeft(raw)));
    WordsArePlain(lowered);
    JoinIsPlain(Words(lowered));
    PlainIsFixed(NormalizePredicate(raw));
  }

  lemma {:induction false} TrimLeftLowers(s: string)
    ensures TrimLeft(LowerAll(s)) == LowerAll(TrimLeft(s))
  {
    if s != "" && IsSpace(s[0]) {
      assert LowerAll(s)[1..] == LowerAll(s[1..]);
      TrimLeftLowers(s[1..]);
    }
  }

  lemma {:induction false} TrimRightLowers(s: string)
    ensures TrimRight(LowerAll(s)) == LowerAll(TrimRight(s))
  {
    if s != "" && IsSpace(s[|s| - 1]) {
      assert LowerAll(s)[..|s| - 1] == LowerAll(s[..|s| - 1]);
      TrimRightLowers(s[..|s| - 1]);
    }
  }

  lemma {:induction false} TrimLeftBefore(s: string, c: char)
    requires IsSpace(c)
    ensures TrimLeft(s + [c]) == if TrimLeft(s) == "" then "" else TrimLeft(s) + [c]
  {
    if s == "" {
      assert (s + [c])[1..] == "";
    } else if IsSpace(s[0]) {
      assert (s + [c])[1..] == s[1..] + [c];
      TrimLeftBefore(s[1..], c);
    }
  }

  /** Letter case and surrounding white space do not matter: such spellings name the same edge. */
  lemma SpellingDoesNotMatter(raw: string, c: char)
    requires IsSpace(c)
    ensures NormalizePredicate(LowerAll(raw)) == NormalizePredicate(raw)
    ensures NormalizePredicate([c] + raw) == NormalizePredicate(raw)
    ensures NormalizePredicate(raw + [c]) == NormalizePredicate(raw)
  {
    TrimLeftLowers(raw);
    TrimRightLowers(TrimLeft(raw));
    var trimmed := TrimRight(TrimLeft(raw));
    assert LowerAll(LowerAll(trimmed)) == LowerAll(trimmed);
    assert ([c] + raw)[1..] == raw;
    TrimLeftBefore(raw, c);
    var left := TrimLeft(raw);
    assert (left + [c])[..|left|] == left;
  }

  // ---- Words ----

  lemma {:induction false} WordsSplit(u: string, c: char, v: string)
    requires IsSpace(c)
    ensures Words(u + [c] + v) == Words(u) + Words(v)
    decreases |u|
  {
    var all := u + [c] + v;
    if u == "" {
      assert all[1..] == v;
    } else if IsSpace(u[0]) {
      assert all[1..] == u[1..] + [c] + v;
      WordsSplit(u[1..], c, v);
    } else {
      hide WordLength;
      var n := WordLength(u);
      FirstWord(u, c, v);
      assert all[0] == u[0] && all[..n] == u[..n] && all[n..] == u[n..] + [c] + v;
      WordsSplit(u[n..], c, v);
      assert Words(all) == [u[..n]] + Words(all[n..]);
      assert Words(u) == [u[..n]] + Words(u[n..]);
    }
  }

  lemma FirstWord(u: string, c: char, v: string)
    requires IsSpace(c)
    ensures WordLength(u + [c] + v) == WordLength(u)
    ensures u != "" && !IsSpace(u[0]) ==> WordLength(u) > 0
  {
    var all := u + [c] + v;
    var m, n := WordLength(all), WordLength(u);
    assert n < |u| ==> all[n] == u[n];
    assert n == |u| ==> all[n] == c;
    assert forall i :: 0 <= i < n ==> all[i] == u[i];
  }

  lemma {:induction false} WordsOfTrimmedLeft(s: string)
    ensures Words(TrimLeft(s)) == Words(s)
  {
    if s != "" && IsSpace(s[0]) {
      WordsOfTrimmedLeft(s[1..]);
    }
  }

  lemma {:induction false} WordsOfTrimmedRight(s: string)
    ensures Words(TrimRight(s)) == Words(s)
  {
    if s != "" && IsSpace(s[|s| - 1]) {
      var front := s[..|s| - 1];
      WordsOfTrimmedRight(front);
      WordsSplit(front, s[|s| - 1], "");
      assert front + [s[|s| - 1]] + "" == s;
    }
  }

  lemma NormalIsWords(raw: string)
    ensures NormalizePredicate(raw) == Join(Words(LowerAll(raw)))
  {
    TrimLeftLowers(raw);
    TrimRightLowers(TrimLeft(raw));
    WordsOfTrimmedLeft(LowerAll(raw));
    WordsOfTrimmedRight(TrimLeft(LowerAll(raw)));
  }

  lemma {:induction false} JoinTwo(p: seq<string>, q: seq<string>)
    requires p != [] && q != []
    ensures Join(p + q) == Join(p) + "_" + Join(q)
  {
    if |p| == 1 {
      assert (p + q)[1..] == q;
    } else {
      JoinTwo(p[1..], q);
      assert (p + q)[1..] == p[1..] + q;
    }
  }

  lemma {:induction false} SomeWord(s: string, i: nat)
    requires i < |s| && !IsSpace(s[i])
    ensures Words(s) != []
  {
    if IsSpace(s[0]) {
      SomeWord(s[1..], i - 1);
    }
  }

  /** White space between words becomes one underscore. */
  lemma WordsAreJoined(a: string, c: char, b: string, i: nat, j: nat)
    requires IsSpace(c) && i < |a| && !IsSpace(a[i]) && j < |b| && !IsSpace(b[j])
    ensures NormalizePredicate(a + [c] + b) == NormalizePredicate(a) + "_" + NormalizePredicate(b)
  {
    NormalIsWords(a);
    NormalIsWords(b);
    NormalIsWords(a + [c] + b);
    assert LowerAll(a + [c] + b) == LowerAll(a) + [Lower(c)] + LowerAll(b);
    WordsSplit(LowerAll(a), Lower(c), LowerAll(b));
    SomeWord(LowerAll(a), i);
    SomeWord(LowerAll(b), j);
    JoinTwo(Words(LowerAll(a)), Words(LowerAll(b)));
  }

  /** Of a node type, letter case and surrounding white space do not matter, and everything else does. */
  lemma TypeSpelling(raw: string, c: char)
    requires IsSpace(c)
    ensures NormalizeNodeType(LowerAll(raw)) == NormalizeNodeType(raw)
    ensures NormalizeNodeType([c] + raw) == NormalizeNodeType(raw) == NormalizeNodeType(raw + [c])
    ensures raw == "" || (!IsSpace(raw[0]) && !IsSpace(raw[|raw| - 1])) ==> NormalizeNodeType(raw) == LowerAll(raw)
  {
    TrimLeftLowers(raw);
    TrimRightLowers(TrimLeft(raw));
    var trimmed := TrimRight(TrimLeft(raw));
    assert LowerAll(LowerAll(trimmed)) == LowerAll(trimmed);
    assert ([c] + raw)[1..] == raw;
    TrimLeftBefore(raw, c);
    var left := TrimLeft(raw);
    assert (left + [c])[..|left|] == left;
  }
}
