/** Exactly which contexts the cache keys of one service tell apart (backend/internal/services/qa_cache.go). The
    mode, the model names and topK are fixed for a service; the question, the language code, the votation, the
    object and the canton come with each query. */
module KeyReadings {
  import opened Text
  import opened Documents
  import opened ChunkIds
  import opened CacheKeys

  const LANG := "|lang="
  const VOTATION := "|votation="
  const OBJECT := "|object="
  const CANTON := "|canton="

  predicate ClearEnd(s: string) { s == "" || !IsSpace(s[|s| - 1]) }
  predicate ClearStart(s: string) { s == "" || !IsSpace(s[0]) }

  /** `s` holds the border between two texts that trimming would leave alone. */
  ghost predicate CutAt(s: string, border: string, a: string, d: string) {
    s == a + border + d && ClearEnd(a) && ClearStart(d)
  }

  ghost predicate HasCut(s: string, border: string) {
    exists a, d :: CutAt(s, border, a, d)
  }

  /** The border in front of a votation, for the language `code`. */
  function Front(code: string): string { LANG + code + VOTATION }

  /** A context whose votation and object cannot be mistaken for more than they are: the object holds no clean
      object border, the votation no clean language and votation border. */
  ghost predicate Readable(c: CacheContext) {
    && !HasCut(TrimSpace(c.objectID), OBJECT)
    && forall code | IsCode(code) :: !HasCut(TrimSpace(c.votationID), Front(code))
  }

  /** The fields a service fixes. */
  ghost predicate SameSetup(c: CacheContext, d: CacheContext) {
    Fields8(c)[4..] == Fields8(d)[4..]
  }

  // ----- The shape of a key text -----

  function Head(question: string, lang: string, votation: string): string {
    question + LANG + lang + VOTATION + votation
  }

  /** What follows the canton. */
  function Tail(rest: seq<string>): string
    requires |rest| == 4
  {
    ['|'] + JoinBars(Parts(LABELS[4..], rest)) + ['|'] + "exact-v1"
  }

  lemma KeyShape(question: string, c: CacheContext)
    ensures var f := Fields8(c);
            ExactPreimage(question, c)
            == Head(TrimSpace(question), f[0], f[1]) + OBJECT + f[2] + CANTON + f[3] + Tail(f[4..])
  {
    var f := Fields8(c);
    hide Fields8, TrimSpace, JoinBars, LANG, VOTATION, OBJECT, CANTON;
    var p := Parts(LABELS, f);
    FirstFour(p);
    LabelledParts(f);
    hide Parts, LABELS;
    Reassociate(TrimSpace(question), f, p, JoinBars(p[4..]), "exact-v1");
  }

  lemma LabelledParts(f: seq<string>)
    requires |f| == 8
    ensures var p := Parts(LABELS, f);
            && p[4..] == Parts(LABELS[4..], f[4..])
            && ['|'] + p[0] == LANG + f[0] && ['|'] + p[1] == VOTATION + f[1]
            && ['|'] + p[2] == OBJECT + f[2] && ['|'] + p[3] == CANTON + f[3]
  {
    assert LANG == ['|'] + LABELS[0] && VOTATION == ['|'] + LABELS[1] && OBJECT == ['|'] + LABELS[2]
           && CANTON == ['|'] + LABELS[3];
    hide LANG, VOTATION, OBJECT, CANTON, LABELS;
  }

  lemma Reassociate(q: string, f: seq<string>, p: seq<string>, rest: string, end: string)
    requires |f| == |p| == 8
    requires ['|'] + p[0] == LANG + f[0] && ['|'] + p[1] == VOTATION + f[1]
    requires ['|'] + p[2] == OBJECT + f[2] && ['|'] + p[3] == CANTON + f[3]
    ensures q + ['|'] + (p[0] + ['|'] + p[1] + ['|'] + p[2] + ['|'] + p[3] + ['|'] + rest) + ['|'] + end
            == Head(q, f[0], f[1]) + OBJECT + f[2] + CANTON + f[3] + (['|'] + rest + ['|'] + end)
  {
    hide LANG, VOTATION, OBJECT, CANTON;
    var joined := q + (['|'] + p[0]) + (['|'] + p[1]) + (['|'] + p[2]) + (['|'] + p[3]) + (['|'] + rest + ['|'] + end);
    assert q + ['|'] + (p[0] + ['|'] + p[1] + ['|'] + p[2] + ['|'] + p[3] + ['|'] + rest) + ['|'] + end == joined;
    assert joined == q + (LANG + f[0]) + (VOTATION + f[1]) + (OBJECT + f[2]) + (CANTON + f[3])
           + (['|'] + rest + ['|'] + end);
  }

  lemma FirstFour(p: seq<string>)
    requires |p| == 8
    ensures JoinBars(p) == p[0] + ['|'] + p[1] + ['|'] + p[2] + ['|'] + p[3] + ['|'] + JoinBars(p[4..])
  {
    assert p == p[..4] + p[4..];
    JoinBarsOfConcat(p[..4], p[4..]);
    assert p[..4] == [p[0], p[1], p[2]] + [p[3]];
    JoinBarsOfConcat([p[0], p[1], p[2]], [p[3]]);
    assert [p[0], p[1], p[2]] == [p[0], p[1]] + [p[2]];
    JoinBarsOfConcat([p[0], p[1]], [p[2]]);
    assert [p[0], p[1]] == [p[0]] + [p[1]];
    JoinBarsOfConcat([p[0]], [p[1]]);
  }

  // ----- Readable contexts are told apart -----

  lemma Borders()
    ensures IsBorder(LANG) && IsBorder(VOTATION) && IsBorder(OBJECT) && IsBorder(CANTON)
    ensures LANG[1] != VOTATION[1] && |LANG| > 1 && |VOTATION| > 1
    ensures ClearEnd(LANG) && ClearEnd(VOTATION) && ClearEnd(OBJECT)
  {
  }

  lemma CantonIsLower(s: string)
    requires Holds(s, CANTON)
    ensures 'c' in s
  {
    var a, d :| s == a + CANTON + d;
    assert s[|a| + 1] == CANTON[1];
  }

  lemma UpperHoldsNoCanton(s: string)
    ensures !Holds(ToUpper(s), CANTON)
  {
    if Holds(ToUpper(s), CANTON) {
      CantonIsLower(ToUpper(s));
    }
  }

  lemma CantonsAgree(x1: string, c1: string, x2: string, c2: string, tail: string)
    requires x1 + CANTON + c1 + tail == x2 + CANTON + c2 + tail && !Holds(c1, CANTON) && !Holds(c2, CANTON)
    ensures x1 == x2 && c1 == c2
  {
    Borders();
    hide CANTON;
    var s, t := x1 + CANTON + c1, x2 + CANTON + c2;
    assert |s| == |t|;
    assert s == (s + tail)[..|s|] && t == (t + tail)[..|t|];
    SplitAtBorder(x1, c1, x2, c2, CANTON);
  }

  lemma ObjectCut(y: string, v: string, o1: string, o2: string, m: string)
    requires o1 == m + OBJECT + o2 && |m| <= |y + v| && (y + v)[|y + v| - |m|..] == m
    requires ClearEnd(y) && ClearEnd(v) && ClearStart(o2)
    ensures HasCut(o1, OBJECT)
  {
    if m != "" {
      EndOfSum(y, v, m);
    }
    assert CutAt(o1, OBJECT, m, o2);
  }

  lemma EndOfSum(a: string, b: string, m: string)
    requires m != "" && |m| <= |a + b|
    requires (a + b)[|a + b| - |m|..] == m && ClearEnd(b) && (b == "" ==> ClearEnd(a))
    ensures ClearEnd(m)
  {
    assert m[|m| - 1] == (a + b)[|a + b| - 1];
  }

  /** A later object border in front of a clear votation would be a cut in the object. */
  lemma ObjectsAgree(y1: string, v1: string, o1: string, y2: string, v2: string, o2: string)
    requires y1 + v1 + OBJECT + o1 == y2 + v2 + OBJECT + o2
    requires ClearEnd(y1) && ClearEnd(y2) && ClearEnd(v1) && ClearEnd(v2) && ClearStart(o1) && ClearStart(o2)
    requires !HasCut(o1, OBJECT) && !HasCut(o2, OBJECT)
    ensures y1 + v1 == y2 + v2 && o1 == o2
  {
    Borders();
    hide OBJECT, HasCut;
    var a, b := y1 + v1, y2 + v2;
    if |a| < |b| {
      var m := LaterReading(a, o1, b, o2, OBJECT);
      ObjectCut(y2, v2, o1, o2, m);
    } else if |b| < |a| {
      var m := LaterReading(b, o2, a, o1, OBJECT);
      ObjectCut(y1, v1, o2, o1, m);
    } else {
      assert (a + OBJECT + o1)[..|a|] == a && (b + OBJECT + o2)[..|b|] == b;
      assert (a + OBJECT + o1)[|a| + |OBJECT|..] == o1 && (b + OBJECT + o2)[|b| + |OBJECT|..] == o2;
    }
  }

  /** A text read in two ways, the first part of one reaching into the second part of the other. */
  lemma SplitInside(a: string, m: string, q: string, tail: string)
    requires a + m == q + tail && |a| <= |q|
    ensures |m| >= |tail| && m == m[..|m| - |tail|] + tail && q == a + m[..|m| - |tail|]
  {
    var s := a + m;
    assert q == s[..|q|] && tail == s[|q|..];
  }

  /** A language border followed by a code stands after any votation border. */
  lemma LanguageStartsLater(z: string, m: string, q: string, code: string)
    requires q + LANG + code == z + VOTATION + m && Free(code, '|')
    ensures |z + VOTATION| <= |q|
  {
    Borders();
    hide LANG, VOTATION;
    var s, p := q + LANG + code, |q|;
    assert s[p] == LANG[0] && s[p + 1] == LANG[1];
    assert s[|z|] == VOTATION[0] && s[|z| + 1] == VOTATION[1];
    forall i | p < i < |s|
      ensures s[i] != '|'
    {
      assert i < p + |LANG| ==> s[i] == LANG[1..][i - p - 1];
      assert i >= p + |LANG| ==> s[i] == code[i - p - |LANG|];
    }
    forall i | |z| < i < |z| + |VOTATION|
      ensures s[i] != '|'
    {
      assert s[i] == VOTATION[1..][i - |z| - 1];
    }
  }

  /** What stands between two votation borders ends in a question and a language. */
  lemma LanguageInside(z: string, m: string, q: string, code: string)
    requires q + LANG + code == z + VOTATION + m && Free(code, '|')
    ensures |m| >= |LANG| + |code| && m == m[..|m| - |LANG| - |code|] + LANG + code
    ensures q == z + VOTATION + m[..|m| - |LANG| - |code|]
  {
    LanguageStartsLater(z, m, q, code);
    hide LANG, VOTATION;
    SplitInside(z + VOTATION, m, q, LANG + code);
    assert q + LANG + code == q + (LANG + code);
    assert m == m[..|m| - |LANG| - |code|] + (LANG + code);
  }

  lemma VotationCut(q1: string, l1: string, v1: string, q2: string, l2: string, v2: string, m: string)
    requires v1 == m + VOTATION + v2 && q2 + LANG + l2 == q1 + LANG + l1 + VOTATION + m
    requires Free(l2, '|') && ClearEnd(q2) && ClearStart(v2)
    ensures HasCut(v1, Front(l2))
  {
    LanguageInside(q1 + LANG + l1, m, q2, l2);
    hide LANG, VOTATION;
    var a := m[..|m| - |LANG| - |l2|];
    if a != "" {
      assert q2[|q2| - 1] == a[|a| - 1];
    }
    assert v1 == a + Front(l2) + v2;
    assert CutAt(v1, Front(l2), a, v2);
  }

  lemma VotationsAgree(q1: string, l1: string, v1: string, q2: string, l2: string, v2: string)
    requires Head(q1, l1, v1) == Head(q2, l2, v2) && IsCode(l1) && IsCode(l2)
    requires ClearEnd(q1) && ClearEnd(q2) && ClearStart(v1) && ClearStart(v2)
    requires !HasCut(v1, Front(l2)) && !HasCut(v2, Front(l1))
    ensures q1 == q2 && l1 == l2 && v1 == v2
  {
    Borders();
    hide LANG, VOTATION, HasCut, Front;
    var a, b := q1 + LANG + l1, q2 + LANG + l2;
    if |a| < |b| {
      var m := LaterReading(a, v1, b, v2, VOTATION);
      VotationCut(q1, l1, v1, q2, l2, v2, m);
    } else if |b| < |a| {
      var m := LaterReading(b, v2, a, v1, VOTATION);
      VotationCut(q2, l2, v2, q1, l1, v1, m);
    } else {
      assert (a + VOTATION + v1)[..|a|] == a && (b + VOTATION + v2)[..|b|] == b;
      assert (a + VOTATION + v1)[|a| + |VOTATION|..] == v1 && (b + VOTATION + v2)[|b| + |VOTATION|..] == v2;
      CodesHoldNoLabel(l1);
      CodesHoldNoLabel(l2);
      SplitAtBorder(q1, l1, q2, l2, LANG);
    }
  }

  lemma CodesHoldNoLabel(code: string)
    requires IsCode(code)
    ensures Free(code, '|') && !Holds(code, LANG)
  {
    if Holds(code, LANG) {
      BordersAreBars(code, LANG);
    }
  }

  lemma FieldsAreClear(c: CacheContext)
    ensures ClearStart(Fields8(c)[1]) && ClearEnd(Fields8(c)[1]) && ClearStart(Fields8(c)[2]) && ClearEnd(Fields8(c)[2])
  {
    TrimSpaceFixedPoints(c.votationID);
    TrimSpaceFixedPoints(c.objectID);
    hide TrimSpace, ToLower, ToUpper, IntToString;
  }

  lemma LanguageField(c: CacheContext)
    requires IsCode(c.language)
    ensures Fields8(c)[0] == c.language
  {
    CodesAreTrimmed(c.language);
    hide TrimSpace, ToUpper, IntToString;
  }

  /** Readable contexts of one service are told apart by their keys, whatever the questions hold. */
  lemma ReadableKeysDiffer(q1: string, c1: CacheContext, q2: string, c2: CacheContext)
    requires IsCode(c1.language) && IsCode(c2.language) && SameSetup(c1, c2) && Readable(c1) && Readable(c2)
    requires ExactPreimage(q1, c1) == ExactPreimage(q2, c2)
    ensures TrimSpace(q1) == TrimSpace(q2) && SameContext(c1, c2)
  {
    ReadableFields(c1);
    ReadableFields(c2);
    KeyShape(q1, c1);
    KeyShape(q2, c2);
    FieldsAreClear(c1);
    FieldsAreClear(c2);
    TrimSpaceFixedPoints(q1);
    TrimSpaceFixedPoints(q2);
    UpperHoldsNoCanton(TrimSpace(c1.canton));
    UpperHoldsNoCanton(TrimSpace(c2.canton));
    LanguageField(c1);
    LanguageField(c2);
    Borders();
    FieldsDecide(TrimSpace(q1), Fields8(c1), TrimSpace(q2), Fields8(c2));
    SameNumbers(c1, c2);
    SameFieldsIff(c1, c2);
    hide Fields8, TrimSpace, SameContext;
  }

  lemma SameNumbers(c1: CacheContext, c2: CacheContext)
    requires Fields8(c1) == Fields8(c2)
    ensures c1.topK == c2.topK
  {
    NumbersAreClean(c1.topK);
    NumbersAreClean(c2.topK);
    assert Fields8(c1)[7] == Fields8(c2)[7];
    hide TrimSpace, ToLower, ToUpper, IntToString;
    if IntToString(c1.topK) == IntToString(c2.topK) {
      NumbersDiffer(c1.topK, c2.topK);
    }
  }

  lemma ReadableFields(c: CacheContext)
    requires Readable(c)
    ensures !HasCut(Fields8(c)[2], OBJECT) && forall code | IsCode(code) :: !HasCut(Fields8(c)[1], Front(code))
    ensures Fields8(c)[3] == ToUpper(TrimSpace(c.canton))
  {
    hide HasCut, TrimSpace, ToUpper, ToLower, IntToString, Front, IsCode;
  }

  lemma FieldsDecide(q1: string, f: seq<string>, q2: string, g: seq<string>)
    requires |f| == |g| == 8 && f[4..] == g[4..] && IsCode(f[0]) && IsCode(g[0])
    requires !HasCut(f[2], OBJECT) && !HasCut(g[2], OBJECT) && !Holds(f[3], CANTON) && !Holds(g[3], CANTON)
    requires !HasCut(f[1], Front(g[0])) && !HasCut(g[1], Front(f[0]))
    requires ClearEnd(q1) && ClearEnd(q2)
    requires ClearStart(f[1]) && ClearEnd(f[1]) && ClearStart(g[1]) && ClearEnd(g[1]) && ClearStart(f[2])
    requires ClearStart(g[2])
    requires Head(q1, f[0], f[1]) + OBJECT + f[2] + CANTON + f[3] + Tail(f[4..])
          == Head(q2, g[0], g[1]) + OBJECT + g[2] + CANTON + g[3] + Tail(g[4..])
    ensures q1 == q2 && f == g
  {
    Borders();
    hide LANG, VOTATION, OBJECT, CANTON, Tail, HasCut, Holds, Front, IsCode, Head;
    CantonsAgree(Head(q1, f[0], f[1]) + OBJECT + f[2], f[3], Head(q2, g[0], g[1]) + OBJECT + g[2], g[3], Tail(f[4..]));
    HeadEnds(q1, f[0], f[1]);
    HeadEnds(q2, g[0], g[1]);
    ObjectsAgree(q1 + LANG + f[0] + VOTATION, f[1], f[2], q2 + LANG + g[0] + VOTATION, g[1], g[2]);
    VotationsAgree(q1, f[0], f[1], q2, g[0], g[1]);
    assert f == [f[0], f[1], f[2], f[3]] + f[4..] && g == [g[0], g[1], g[2], g[3]] + g[4..];
  }

  lemma HeadEnds(q: string, lang: string, votation: string)
    ensures Head(q, lang, votation) == q + LANG + lang + VOTATION + votation
    ensures ClearEnd(q + LANG + lang + VOTATION)
  {
    Borders();
    hide LANG, VOTATION;
  }

  // ----- And only they are -----

  /** The last cut leaves a rest without one. */
  lemma {:induction false} LastCut(s: string, border: string) returns (a: string, d: string)
    requires HasCut(s, border) && border != "" && ClearEnd(border)
    ensures CutAt(s, border, a, d) && !HasCut(d, border)
    decreases |s|
  {
    a, d :| CutAt(s, border, a, d);
    if HasCut(d, border) {
      var inner, rest := LastCut(d, border);
      assert s == (a + border + inner) + border + rest;
      a, d := a + border + inner, rest;
    }
  }

  ghost predicate HasFront(s: string) {
    exists code :: IsCode(code) && HasCut(s, Front(code))
  }

  lemma {:induction false} LastFront(s: string) returns (a: string, code: string, d: string)
    requires HasFront(s)
    ensures IsCode(code) && CutAt(s, Front(code), a, d) && !HasFront(d)
    decreases |s|
  {
    hide Front, IsCode;
    code :| IsCode(code) && HasCut(s, Front(code));
    a, d :| CutAt(s, Front(code), a, d);
    FrontEnds(code);
    if HasFront(d) {
      var inner, next, rest := LastFront(d);
      var longer := a + Front(code) + inner;
      assert s == longer + Front(next) + rest;
      assert ClearEnd(longer);
      a, code, d := longer, next, rest;
    }
  }

  lemma FrontEnds(code: string)
    ensures Front(code) != "" && ClearEnd(Front(code))
  {
    Borders();
    hide LANG, VOTATION;
  }

  /** What the object border hides in an object belongs to a longer votation. */
  lemma ObjectStep(lang: string, v: string, o: string) returns (v': string, o': string)
    requires ClearStart(v) && ClearEnd(v) && ClearStart(o) && ClearEnd(o)
    ensures ClearStart(v') && ClearEnd(v') && ClearStart(o') && ClearEnd(o') && !HasCut(o', OBJECT)
    ensures Head("", lang, v) + OBJECT + o == Head("", lang, v') + OBJECT + o'
    ensures if HasCut(o, OBJECT) then |o'| < |o| else v' == v && o' == o
  {
    Borders();
    hide LANG, VOTATION, OBJECT;
    v', o' := v, o;
    if HasCut(o, OBJECT) {
      var a, d := LastCut(o, OBJECT);
      v', o' := v + OBJECT + a, d;
      assert ClearStart(v') && ClearEnd(v') by { BordersStartClear(); }
      assert ClearEnd(o') by { if d != "" { assert o[|o| - 1] == d[|d| - 1]; } }
    }
  }

  lemma BordersStartClear()
    ensures ClearStart(OBJECT) && ClearStart(LANG)
  {
  }

  /** What a language and votation border hides in a votation belongs to a longer question. */
  lemma VotationStep(lang: string, v: string) returns (q: string, lang': string, v': string)
    requires IsCode(lang) && ClearStart(v) && ClearEnd(v)
    ensures IsCode(lang') && ClearStart(q) && ClearEnd(q) && ClearStart(v') && ClearEnd(v') && !HasFront(v')
    ensures Head("", lang, v) == Head(q, lang', v')
    ensures if HasFront(v) then |v'| < |v| else v' == v
  {
    Borders();
    hide LANG, VOTATION, HasCut;
    q, lang', v' := "", lang, v;
    if HasFront(v) {
      var a, code, d := LastFront(v);
      q, lang', v' := Head("", lang, a), code, d;
      FrontEnds(code);
      BordersStartClear();
      assert ClearEnd(v') by { if d != "" { assert v[|v| - 1] == d[|d| - 1]; } }
      assert Head("", lang, v) == q + LANG + code + VOTATION + d;
    }
  }

  /** A context that is not readable shares a key with a readable one of the same service. */
  lemma UnreadableKeyIsShared(c: CacheContext) returns (q: string, d: CacheContext)
    requires IsCode(c.language) && !Readable(c)
    ensures IsCode(d.language) && SameSetup(c, d) && Readable(d) && !SameContext(c, d)
    ensures ExactPreimage("", c) == ExactPreimage(q, d)
  {
    var f := Fields8(c);
    FieldsAreClear(c);
    LanguageField(c);
    UnreadableFields(c);
    var v, o := ObjectStep(f[0], f[1], f[2]);
    var lang, votation;
    q, lang, votation := VotationStep(f[0], v);
    d := c.(language := lang, votationID := votation, objectID := o);
    NewFields(c, lang, votation, o);
    SameFieldsIff(c, d);
    hide SameContext, HasCut, HasFront, Fields8, TrimSpace, LANG, VOTATION, OBJECT, CANTON, Head, ClearEnd,
         ClearStart, Tail;
    ReadableByFields(d);
    TrimClear(q);
    TrimClear("");
    KeyShape("", c);
    KeyShape(q, d);
  }

  lemma TrimClear(s: string)
    requires ClearStart(s) && ClearEnd(s)
    ensures TrimSpace(s) == s
  {
    TrimSpaceFixedPoints(s);
  }

  lemma UnreadableFields(c: CacheContext)
    requires !Readable(c)
    ensures HasCut(Fields8(c)[2], OBJECT) || HasFront(Fields8(c)[1])
  {
    hide HasCut, TrimSpace, ToUpper, ToLower, IntToString, Front, IsCode;
  }

  lemma ReadableByFields(c: CacheContext)
    requires !HasCut(Fields8(c)[2], OBJECT) && !HasFront(Fields8(c)[1])
    ensures Readable(c)
  {
    hide HasCut, TrimSpace, ToUpper, ToLower, IntToString, Front, IsCode;
  }

  lemma NewFields(c: CacheContext, lang: string, votation: string, item: string)
    requires IsCode(lang) && ClearStart(votation) && ClearEnd(votation) && ClearStart(item) && ClearEnd(item)
    ensures var f, g := Fields8(c), Fields8(c.(language := lang, votationID := votation, objectID := item));
            g[0] == lang && g[1] == votation && g[2] == item && g[3] == f[3] && g[4..] == f[4..]
  {
    CodesAreTrimmed(lang);
    TrimClear(votation);
    TrimClear(item);
    hide TrimSpace, ToUpper, IntToString;
  }

  /** Readability is the exact condition: a context is told apart from all readable contexts of its service, for
      all questions, if and only if it is readable itself. */
  lemma ToldApartIff(c: CacheContext)
    requires IsCode(c.language)
    ensures Readable(c)
       <==> forall q1, q2, d: CacheContext | IsCode(d.language) && SameSetup(c, d) && Readable(d)
       && ExactPreimage(q1, c) == ExactPreimage(q2, d) ::
              TrimSpace(q1) == TrimSpace(q2) && SameContext(c, d)
  {
    hide Readable, SameSetup, SameContext, ExactPreimage, TrimSpace, IsCode;
    if Readable(c) {
      forall q1, q2, d: CacheContext | IsCode(d.language) && SameSetup(c, d) && Readable(d)
             && ExactPreimage(q1, c) == ExactPreimage(q2, d)
        ensures TrimSpace(q1) == TrimSpace(q2) && SameContext(c, d)
      {
        ReadableKeysDiffer(q1, c, q2, d);
      }
    } else {
      var q, d := UnreadableKeyIsShared(c);
    }
  }

  /** Contexts without bars in their votation and object are readable. */
  lemma NoBarsIsReadable(c: CacheContext)
    requires Free(c.votationID, '|') && Free(c.objectID, '|')
    ensures Readable(c)
  {
    TrimSpaceKeepsFree(c.votationID, '|');
    TrimSpaceKeepsFree(c.objectID, '|');
    hide TrimSpace, IsCode;
    if HasCut(TrimSpace(c.objectID), OBJECT) {
      BordersAreBars(TrimSpace(c.objectID), OBJECT);
    }
    forall code | IsCode(code)
      ensures !HasCut(TrimSpace(c.votationID), Front(code))
    {
      if HasCut(TrimSpace(c.votationID), Front(code)) {
        BordersAreBars(TrimSpace(c.votationID), Front(code));
      }
    }
  }
}
