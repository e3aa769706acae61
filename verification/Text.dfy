/** The parts of Go's `strings` package that the indexer, the caches and the id builders rely on,
    on strings taken as sequences of Unicode characters. */
module Text {

  /** The characters `unicode.IsSpace` accepts. */
  predicate IsSpace(c: char) {
    || '\t' <= c <= '\r' || c == ' ' || c == '\U{85}' || c == '\U{A0}'
    || c == '\U{1680}' || '\U{2000}' <= c <= '\U{200A}' || c == '\U{2028}' || c == '\U{2029}'
    || c == '\U{202F}' || c == '\U{205F}' || c == '\U{3000}'
  }

  predicate NoSpace(s: string) {
    forall i | 0 <= i < |s| :: !IsSpace(s[i])
  }

  // ----- strings.TrimSpace -----

  function TrimLeft(s: string): string {
    if s != "" && IsSpace(s[0]) then TrimLeft(s[1..]) else s
  }

  function TrimRight(s: string): string {
    if s != "" && IsSpace(s[|s| - 1]) then TrimRight(s[..|s| - 1]) else s
  }

  function TrimSpace(s: string): string {
    TrimRight(TrimLeft(s))
  }

  /** `s` is what `TrimSpace` leaves alone. */
  predicate Trimmed(s: string) {
    s == "" || (!IsSpace(s[0]) && !IsSpace(s[|s| - 1]))
  }

  lemma {:induction false} TrimLeftStartsClean(s: string)
    ensures TrimLeft(s) == "" || !IsSpace(TrimLeft(s)[0])
    decreases |s|
  {
    if s != "" && IsSpace(s[0]) {
      TrimLeftStartsClean(s[1..]);
    }
  }

  lemma {:induction false} TrimRightKeepsStart(s: string)
    requires s == "" || !IsSpace(s[0])
    ensures Trimmed(TrimRight(s))
    decreases |s|
  {
    if s != "" && IsSpace(s[|s| - 1]) {
      TrimRightKeepsStart(s[..|s| - 1]);
    }
  }

  /** `TrimSpace` returns a trimmed string, and exactly the trimmed strings are its fixed points. */
  lemma TrimSpaceFixedPoints(s: string)
    ensures Trimmed(TrimSpace(s))
    ensures TrimSpace(s) == s <==> Trimmed(s)
    ensures TrimSpace(TrimSpace(s)) == TrimSpace(s)
  {
    TrimLeftStartsClean(s);
    TrimRightKeepsStart(TrimLeft(s));
  }

  // ----- strings.Fields and strings.Join(_, " ") -----

  /** The length of the longest prefix without white space. */
  function WordLength(s: string): (n: nat)
    ensures n <= |s|
    ensures NoSpace(s[..n])
    ensures n < |s| ==> IsSpace(s[n])
  {
    if s == "" || IsSpace(s[0]) then 0 else 1 + WordLength(s[1..])
  }

  function Fields(s: string): seq<string>
    decreases |s|
  {
    if s == "" then []
    else if IsSpace(s[0]) then Fields(s[1..])
    else [s[..WordLength(s)]] + Fields(s[WordLength(s)..])
  }

  function JoinWords(words: seq<string>): string {
    if words == [] then ""
    else if |words| == 1 then words[0]
    else words[0] + " " + JoinWords(words[1..])
  }

  /** `normalizeWhitespace`. */
  function NormalizeWhitespace(s: string): string {
    JoinWords(Fields(s))
  }

  predicate IsWord(w: string) {
    w != "" && NoSpace(w)
  }

  predicate AllWords(words: seq<string>) {
    forall i | 0 <= i < |words| :: IsWord(words[i])
  }

  lemma {:induction false} FieldsAreWords(s: string)
    ensures AllWords(Fields(s))
    decreases |s|
  {
    if s == "" {
    } else if IsSpace(s[0]) {
      FieldsAreWords(s[1..]);
    } else {
      FieldsAreWords(s[WordLength(s)..]);
    }
  }

  lemma {:induction false} NoFieldsInSpace(s: string)
    requires forall i | 0 <= i < |s| :: IsSpace(s[i])
    ensures Fields(s) == []
    decreases |s|
  {
    if s != "" {
      NoFieldsInSpace(s[1..]);
    }
  }

  lemma {:induction false} TrimmedAway(s: string)
    requires TrimSpace(s) == ""
    ensures forall i | 0 <= i < |s| :: IsSpace(s[i])
    decreases |s|
  {
    if s != "" {
      if IsSpace(s[0]) {
        TrimmedAway(s[1..]);
      } else {
        TrimRightKeepsFirst(s);
      }
    }
  }

  lemma {:induction false} TrimRightKeepsFirst(s: string)
    requires s != "" && !IsSpace(s[0])
    ensures TrimRight(s) != ""
    decreases |s|
  {
    if IsSpace(s[|s| - 1]) {
      TrimRightKeepsFirst(s[..|s| - 1]);
    }
  }

  /** A text with a token does not trim to nothing. */
  lemma TextWithFieldsIsVisible(s: string)
    requires Fields(s) != []
    ensures TrimSpace(s) != "" && NormalizeWhitespace(s) != ""
  {
    if TrimSpace(s) == "" {
      TrimmedAway(s);
      NoFieldsInSpace(s);
    }
    NormalizeWhitespaceKeepsFields(s);
  }

  lemma {:induction false} WordLengthOfWord(w: string, rest: string)
    requires NoSpace(w)
    requires rest == "" || IsSpace(rest[0])
    ensures WordLength(w + rest) == |w|
    decreases |w|
  {
    if w == "" {
      assert w + rest == rest;
    } else {
      assert (w + rest)[1..] == w[1..] + rest;
      WordLengthOfWord(w[1..], rest);
    }
  }

  /** Splitting undoes joining: the tokens of a joined text are the tokens that were joined. */
  lemma {:induction false} FieldsOfJoin(words: seq<string>)
    requires AllWords(words)
    ensures Fields(JoinWords(words)) == words
    decreases |words|
  {
    if words == [] {
    } else {
      var w, rest := words[0], if |words| == 1 then "" else " " + JoinWords(words[1..]);
      assert JoinWords(words) == w + rest;
      WordLengthOfWord(w, rest);
      assert (w + rest)[..|w|] == w && (w + rest)[|w|..] == rest;
      FieldsOfJoin(words[1..]);
      if |words| > 1 {
        assert rest[1..] == JoinWords(words[1..]);
      }
    }
  }

  /** Normalising white space changes no token, so normalising twice is normalising once. */
  lemma NormalizeWhitespaceKeepsFields(s: string)
    ensures Fields(NormalizeWhitespace(s)) == Fields(s)
    ensures NormalizeWhitespace(NormalizeWhitespace(s)) == NormalizeWhitespace(s)
  {
    FieldsAreWords(s);
    FieldsOfJoin(Fields(s));
  }

  // ----- Unique splitting at a separator -----

  predicate Free(s: string, c: char) {
    forall i | 0 <= i < |s| :: s[i] != c
  }

  lemma LastPosition(a: string, x: string, c: char)
    requires Free(x, c)
    ensures (a + [c] + x)[|a|] == c
    ensures forall i | |a| < i < |a + [c] + x| :: (a + [c] + x)[i] != c
  {
  }

  /** A string splits in one way at its last `c`. */
  lemma SplitAtLast(a: string, b: string, x: string, y: string, c: char)
    requires a + [c] + x == b + [c] + y
    requires Free(x, c) && Free(y, c)
    ensures a == b && x == y
  {
    var s, t := a + [c] + x, b + [c] + y;
    LastPosition(a, x, c);
    LastPosition(b, y, c);
    assert |a| == |b|;
    assert s[..|a|] == a && t[..|b|] == b;
    assert s[|a| + 1..] == x && t[|b| + 1..] == y;
  }

  lemma FirstPosition(a: string, x: string, c: char)
    requires Free(a, c)
    ensures (a + [c] + x)[|a|] == c
    ensures forall i | 0 <= i < |a| :: (a + [c] + x)[i] != c
  {
  }

  /** A string splits in one way at its first `c`. */
  lemma SplitAtFirst(a: string, b: string, x: string, y: string, c: char)
    requires a + [c] + x == b + [c] + y
    requires Free(a, c) && Free(b, c)
    ensures a == b && x == y
  {
    var s, t := a + [c] + x, b + [c] + y;
    FirstPosition(a, x, c);
    FirstPosition(b, y, c);
    assert |a| == |b|;
    assert s[..|a|] == a && t[..|b|] == b;
    assert s[|a| + 1..] == x && t[|b| + 1..] == y;
  }

  // ----- The order of texts -----

  predicate Less(a: string, b: string) {
    if a == "" then b != ""
    else b != "" && (a[0] < b[0] || (a[0] == b[0] && Less(a[1..], b[1..])))
  }

  /** Where two texts first differ, or the shorter one ends, decides their order. */
  lemma {:induction false} LessIff(a: string, b: string)
    ensures Less(a, b) <==> exists n :: 0 <= n <= |a| && n < |b| && a[..n] == b[..n] && (n == |a| || a[n] < b[n])
    decreases |a|
  {
    if a == "" {
      assert b != "" ==> a[..0] == b[..0];
    } else if b != "" {
      LessIff(a[1..], b[1..]);
      if n :| 0 <= n <= |a[1..]| && n < |b[1..]| && a[1..][..n] == b[1..][..n]
              && (n == |a[1..]| || a[1..][n] < b[1..][n]) {
        if a[0] == b[0] {
          assert a[..n + 1] == [a[0]] + a[1..][..n] && b[..n + 1] == [b[0]] + b[1..][..n];
        }
      }
      if n :| 0 <= n <= |a| && n < |b| && a[..n] == b[..n] && (n == |a| || a[n] < b[n]) {
        if n > 0 {
          assert a[0] == a[..n][0] == b[..n][0] == b[0];
          assert a[1..][..n - 1] == a[..n][1..] == b[..n][1..] == b[1..][..n - 1];
        }
      }
      if a[0] < b[0] {
        assert a[..0] == b[..0];
      }
    }
  }

  lemma {:induction false} LessIsTransitive(a: string, b: string, c: string)
    requires Less(a, b) && Less(b, c)
    ensures Less(a, c)
    decreases |a|
  {
    if a != "" && a[0] == b[0] == c[0] {
      LessIsTransitive(a[1..], b[1..], c[1..]);
    }
  }

  lemma {:induction false} LessIsTotal(a: string, b: string)
    ensures a == b || Less(a, b) || Less(b, a)
    decreases |a|
  {
    if a != "" && b != "" && a[0] == b[0] {
      LessIsTotal(a[1..], b[1..]);
      assert a == [a[0]] + a[1..] && b == [b[0]] + b[1..];
    }
  }

  lemma {:induction false} LessIsStrict(a: string)
    ensures !Less(a, a)
    decreases |a|
  {
    if a != "" {
      LessIsStrict(a[1..]);
    }
  }

  /** A set of texts that is not empty has a first one. */
  lemma {:induction false} HasFirst(texts: set<string>) returns (first: string)
    requires texts != {}
    ensures first in texts && forall t | t in texts :: t == first || Less(first, t)
    decreases texts
  {
    first :| first in texts;
    if texts != {first} {
      var next := HasFirst(texts - {first});
      LessIsTotal(first, next);
      if Less(next, first) {
        first := next;
      } else {
        forall t | t in texts && t != first
          ensures Less(first, t)
        {
          if t != next {
            LessIsTransitive(first, next, t);
          }
        }
      }
    }
  }
}
