/** The texts that are hashed into cache keys (backend/internal/services/qa_cache.go). */
module CacheKeys {
  import opened Text
  import opened Documents
  import opened ChunkIds

  datatype CacheContext = CacheContext(
    language: string, votationID: string, objectID: string, canton: string,
    ragMode: string, embedder: string, summarizer: string, topK: int)

  function UpperChar(c: char): char {
    if 'a' <= c <= 'z' then c - 32 as char else c
  }

  function ToUpper(s: string): (r: string)
    ensures |r| == |s|
  {
    seq(|s|, i requires 0 <= i < |s| => UpperChar(s[i]))
  }

  function IntToString(n: int): string {
    if n < 0 then "-" + Digits(-n) else Digits(n)
  }

  const LABELS := ["lang=", "votation=", "object=", "canton=", "ragMode=", "embedder=", "summarizer=", "topK="]

  /** The context as the signature sees it. */
  function Fields8(c: CacheContext): (r: seq<string>)
    ensures |r| == 8
  {
    [ToLower(TrimSpace(c.language)), TrimSpace(c.votationID), TrimSpace(c.objectID), ToUpper(TrimSpace(c.canton)),
     TrimSpace(c.ragMode), TrimSpace(c.embedder), TrimSpace(c.summarizer), TrimSpace(IntToString(c.topK))]
  }

  function Parts(labels: seq<string>, values: seq<string>): (r: seq<string>)
    requires |labels| == |values|
    ensures |r| == |values|
  {
    seq(|values|, i requires 0 <= i < |values| => labels[i] + values[i])
  }

  /** strings.Join(parts, "|"). */
  function JoinBars(parts: seq<string>): string {
    if parts == [] then ""
    else if |parts| == 1 then parts[0]
    else JoinBars(parts[..|parts| - 1]) + ['|'] + parts[|parts| - 1]
  }

  function ContextSignature(c: CacheContext): string {
    JoinBars(Parts(LABELS, Fields8(c)))
  }

  function ExactPreimage(question: string, c: CacheContext): string {
    TrimSpace(question) + ['|'] + ContextSignature(c) + ['|'] + "exact-v1"
  }

  function ExactKey(h: Hash, question: string, c: CacheContext): string {
    h(ExactPreimage(question, c))
  }

  function ContextHash(h: Hash, c: CacheContext): string {
    h(ContextSignature(c))
  }

  function SemanticKey(h: Hash, questionHash: string, contextHash: string): string {
    h(questionHash + ['|'] + contextHash + ['|'] + "semantic-v1")
  }

  ghost predicate AllFree(parts: seq<string>) {
    forall i | 0 <= i < |parts| :: Free(parts[i], '|')
  }

  ghost predicate Holds(s: string, part: string) {
    exists before, after :: s == before + part + after
  }

  /** A bar followed by a text without bars. */
  predicate IsBorder(border: string) {
    border != "" && border[0] == '|' && Free(border[1..], '|')
  }

  /** When a text has two readings around a border, the border occurs again after the earlier place. */
  lemma LaterReading(a: string, x: string, b: string, y: string, border: string) returns (m: string)
    requires IsBorder(border) && a + border + x == b + border + y && |a| < |b|
    ensures x == m + border + y && b == a + border + m
  {
    var s, n := a + border + x, |border|;
    assert s[|b|] == '|' by { assert (b + border + y)[|b|] == border[0]; }
    forall p | |a| < p < |a| + n
      ensures s[p] != '|'
    {
      assert s[p] == border[1..][p - |a| - 1];
    }
    m := x[..|b| - |a| - n];
    assert s[|b|..] == border + y && s[..|b|] == b;
    assert s[..|b|] == a + border + m;
    assert x == s[|a| + n..] == m + s[|b|..];
  }

  /** A text splits in one way at its last border. */
  lemma SplitAtBorder(a: string, x: string, b: string, y: string, border: string)
    requires IsBorder(border) && a + border + x == b + border + y && !Holds(x, border) && !Holds(y, border)
    ensures a == b && x == y
  {
    if |a| < |b| {
      var m := LaterReading(a, x, b, y, border);
    } else if |b| < |a| {
      var m := LaterReading(b, y, a, x, border);
    } else {
      assert (a + border + x)[..|a|] == a && (b + border + y)[..|b|] == b;
      assert (a + border + x)[|a| + |border|..] == x && (b + border + y)[|b| + |border|..] == y;
    }
  }

  /** No value holds its own label after a bar. */
  ghost predicate OwnLabelFree(labels: seq<string>, values: seq<string>)
    requires |labels| == |values|
  {
    forall i | 0 <= i < |labels| :: !Holds(values[i], ['|'] + labels[i])
  }

  /** Labelled values can be read back from the right, whatever precedes them, when no value holds its own label
      after a bar; other bars do no harm. */
  lemma {:induction false} JoinBarsInjective(labels: seq<string>, q1: string, v1: seq<string>, q2: string,
                                             v2: seq<string>)
    requires |labels| == |v1| == |v2| > 0 && AllFree(labels) && OwnLabelFree(labels, v1) && OwnLabelFree(labels, v2)
    requires q1 + ['|'] + JoinBars(Parts(labels, v1)) == q2 + ['|'] + JoinBars(Parts(labels, v2))
    ensures q1 == q2 && v1 == v2
    decreases |v1|
  {
    hide JoinBars, Parts, Holds;
    var n := |labels| - 1;
    var border := ['|'] + labels[n];
    LabelIsBorder(labels[n]);
    if n == 0 {
      OnePart(labels, v1, q1);
      OnePart(labels, v2, q2);
      SplitAtBorder(q1, v1[0], q2, v2[0], border);
    } else {
      var a := q1 + ['|'] + JoinBars(Parts(labels[..n], v1[..n]));
      var b := q2 + ['|'] + JoinBars(Parts(labels[..n], v2[..n]));
      LastPart(labels, v1, q1);
      LastPart(labels, v2, q2);
      SplitAtBorder(a, v1[n], b, v2[n], border);
      JoinBarsInjective(labels[..n], q1, v1[..n], q2, v2[..n]);
      assert v1 == v1[..n] + [v1[n]] && v2 == v2[..n] + [v2[n]];
    }
  }

  lemma LabelIsBorder(name: string)
    requires Free(name, '|')
    ensures IsBorder(['|'] + name)
  {
    assert (['|'] + name)[1..] == name;
  }

  lemma OnePart(labels: seq<string>, v: seq<string>, q: string)
    requires |labels| == |v| == 1
    ensures q + ['|'] + JoinBars(Parts(labels, v)) == q + (['|'] + labels[0]) + v[0]
  {
    assert q + ['|'] + (labels[0] + v[0]) == q + (['|'] + labels[0]) + v[0];
  }

  lemma LastPart(labels: seq<string>, v: seq<string>, q: string)
    requires |labels| == |v| > 1
    ensures var n := |labels| - 1;
            q + ['|'] + JoinBars(Parts(labels, v))
            == q + ['|'] + JoinBars(Parts(labels[..n], v[..n])) + (['|'] + labels[n]) + v[n]
  {
    var n := |labels| - 1;
    assert Parts(labels, v)[..n] == Parts(labels[..n], v[..n]);
    assert Parts(labels, v)[n] == labels[n] + v[n];
  }

  lemma {:induction false} TrimKeepsFree(s: string, c: char)
    requires Free(s, c)
    ensures Free(TrimLeft(s), c) && Free(TrimRight(s), c)
    decreases |s|
  {
    if s != "" {
      if IsSpace(s[0]) {
        TrimKeepsFree(s[1..], c);
      }
      if IsSpace(s[|s| - 1]) {
        TrimKeepsFree(s[..|s| - 1], c);
      }
    }
  }

  lemma TrimSpaceKeepsFree(s: string, c: char)
    requires Free(s, c)
    ensures Free(TrimSpace(s), c)
  {
    TrimKeepsFree(s, c);
    TrimKeepsFree(TrimLeft(s), c);
  }

  lemma NumbersAreClean(n: int)
    ensures Free(IntToString(n), '|') && TrimSpace(IntToString(n)) == IntToString(n)
  {
    hide TrimSpace, Digits;
    var digits := Digits(if n < 0 then -n else n);
    DigitsReadBack(if n < 0 then -n else n);
    DigitsAreVisible(if n < 0 then -n else n);
    SignedIsClean(digits);
    TrimSpaceFixedPoints(IntToString(n));
  }

  lemma SignedIsClean(digits: string)
    requires digits != "" && IsDigits(digits)
    ensures Free(digits, '|') && Trimmed(digits) && Free("-" + digits, '|') && Trimmed("-" + digits)
  {
    assert !IsSpace(digits[0]) && !IsSpace(digits[|digits| - 1]);
    assert ("-" + digits)[|digits|] == digits[|digits| - 1];
  }

  lemma {:induction false} DigitsAreVisible(n: nat)
    ensures Digits(n) != ""
  {
  }

  lemma NumbersDiffer(m: int, n: int)
    requires IntToString(m) == IntToString(n)
    ensures m == n
  {
    DigitsReadBack(if m < 0 then -m else m);
    DigitsReadBack(if n < 0 then -n else n);
    DigitsAreVisible(if m < 0 then -m else m);
    DigitsAreVisible(if n < 0 then -n else n);
    assert m < 0 ==> IntToString(m)[0] == '-' && IntToString(m)[1..] == Digits(-m);
    assert n < 0 ==> IntToString(n)[0] == '-' && IntToString(n)[1..] == Digits(-n);
  }

  /** No field of the context holds a bar. */
  ghost predicate NoBars(c: CacheContext) {
    && Free(c.language, '|') && Free(c.votationID, '|') && Free(c.objectID, '|') && Free(c.canton, '|')
    && Free(c.ragMode, '|') && Free(c.embedder, '|') && Free(c.summarizer, '|')
  }

  lemma FieldsHaveNoBars(c: CacheContext)
    requires NoBars(c)
    ensures AllFree(Fields8(c))
  {
    TrimSpaceKeepsFree(c.language, '|');
    TrimSpaceKeepsFree(c.votationID, '|');
    TrimSpaceKeepsFree(c.objectID, '|');
    TrimSpaceKeepsFree(c.canton, '|');
    TrimSpaceKeepsFree(c.ragMode, '|');
    TrimSpaceKeepsFree(c.embedder, '|');
    TrimSpaceKeepsFree(c.summarizer, '|');
    NumbersAreClean(c.topK);
    hide TrimSpace, IntToString;
  }

  lemma LabelsHaveNoBars()
    ensures AllFree(LABELS)
  {
  }

  lemma BordersAreBars(s: string, border: string)
    requires Holds(s, border) && border != "" && border[0] == '|'
    ensures !Free(s, '|')
  {
    var a, d :| s == a + border + d;
    assert s[|a|] == '|';
  }

  lemma BarlessHoldNoLabels(labels: seq<string>, values: seq<string>)
    requires |labels| == |values| && AllFree(values)
    ensures OwnLabelFree(labels, values)
  {
    forall i | 0 <= i < |labels|
      ensures !Holds(values[i], ['|'] + labels[i])
    {
      if Holds(values[i], ['|'] + labels[i]) {
        BordersAreBars(values[i], ['|'] + labels[i]);
      }
    }
  }

  /** Without bars in its fields a context is among those that can be told apart. */
  lemma NoBarsNoOwnLabel(c: CacheContext)
    requires NoBars(c)
    ensures OwnLabelFree(LABELS, Fields8(c))
  {
    hide Fields8, AllFree;
    FieldsHaveNoBars(c);
    BarlessHoldNoLabels(LABELS, Fields8(c));
  }

  predicate IsLower(c: char) { 'a' <= c <= 'z' }

  /** The same letters, capital or small. */
  predicate UpToCase(s: string, t: string) {
    |s| == |t| && forall i | 0 <= i < |s| ::
      || s[i] == t[i]
      || (IsLower(s[i]) && s[i] as int - 'a' as int == t[i] as int - 'A' as int)
      || (IsLower(t[i]) && t[i] as int - 'a' as int == s[i] as int - 'A' as int)
  }

  lemma UpperCaseAgreesIff(s: string, t: string)
    ensures ToUpper(s) == ToUpper(t) <==> UpToCase(s, t)
  {
    if UpToCase(s, t) {
      assert ToUpper(s) == ToUpper(t);
    }
    if ToUpper(s) == ToUpper(t) {
      forall i | 0 <= i < |s|
        ensures UpperChar(s[i]) == UpperChar(t[i])
      {
        assert ToUpper(s)[i] == ToUpper(t)[i];
      }
    }
  }

  /** Two contexts that differ in nothing but white space around their texts and the case of language and canton. */
  ghost predicate SameContext(c: CacheContext, d: CacheContext) {
    && ToLower(TrimSpace(c.language)) == ToLower(TrimSpace(d.language))
    && TrimSpace(c.votationID) == TrimSpace(d.votationID) && TrimSpace(c.objectID) == TrimSpace(d.objectID)
    && UpToCase(TrimSpace(c.canton), TrimSpace(d.canton))
    && TrimSpace(c.ragMode) == TrimSpace(d.ragMode) && TrimSpace(c.embedder) == TrimSpace(d.embedder)
    && TrimSpace(c.summarizer) == TrimSpace(d.summarizer) && c.topK == d.topK
  }

  /** The signature sees just these differences. */
  lemma SameFieldsIff(c: CacheContext, d: CacheContext)
    ensures Fields8(c) == Fields8(d) && c.topK == d.topK <==> SameContext(c, d)
  {
    UpperCaseAgreesIff(TrimSpace(c.canton), TrimSpace(d.canton));
    hide TrimSpace, ToLower, ToUpper, IntToString, UpToCase;
    var f, g := Fields8(c), Fields8(d);
    assert f == g ==> f[0] == g[0] && f[1] == g[1] && f[2] == g[2] && f[3] == g[3] && f[4] == g[4] && f[5] == g[5]
                      && f[6] == g[6];
  }

  /** The key text determines question and context: for contexts none of whose normalised fields holds its own
      label after a bar, equal texts come from equal trimmed questions and equal normalised contexts. Any other bar
      in a field, and any text in a question, does no harm. */
  lemma ExactPreimageInjective(q1: string, c1: CacheContext, q2: string, c2: CacheContext)
    requires OwnLabelFree(LABELS, Fields8(c1)) && OwnLabelFree(LABELS, Fields8(c2))
    requires ExactPreimage(q1, c1) == ExactPreimage(q2, c2)
    ensures TrimSpace(q1) == TrimSpace(q2) && SameContext(c1, c2)
  {
    hide TrimSpace, Parts, JoinBars, IntToString, ToLower, ToUpper, OwnLabelFree, SameContext;
    SameFieldsIff(c1, c2);
    LabelsHaveNoBars();
    NumbersAreClean(c1.topK);
    NumbersAreClean(c2.topK);
    SplitAtLast(TrimSpace(q1) + ['|'] + ContextSignature(c1), TrimSpace(q2) + ['|'] + ContextSignature(c2),
                "exact-v1", "exact-v1", '|');
    JoinBarsInjective(LABELS, TrimSpace(q1), Fields8(c1), TrimSpace(q2), Fields8(c2));
    if IntToString(c1.topK) == IntToString(c2.topK) {
      NumbersDiffer(c1.topK, c2.topK);
    }
  }

  /** In particular, no two contexts without bars in their fields share a key text, whatever the questions hold. */
  lemma BarlessContextsDiffer(q1: string, c1: CacheContext, q2: string, c2: CacheContext)
    requires NoBars(c1) && NoBars(c2) && ExactPreimage(q1, c1) == ExactPreimage(q2, c2)
    ensures TrimSpace(q1) == TrimSpace(q2) && SameContext(c1, c2)
  {
    hide NoBars, OwnLabelFree, TrimSpace, ExactPreimage, SameContext;
    NoBarsNoOwnLabel(c1);
    NoBarsNoOwnLabel(c2);
    ExactPreimageInjective(q1, c1, q2, c2);
  }

  /** A hash whose values hold no bar, as hexadecimal digests do. */
  ghost predicate BarFree(h: Hash) {
    forall s :: Free(h(s), '|')
  }

  /** Two questions in one context, or one question in two, keep semantic keys of their own: equal keys mean equal
      trimmed questions and equal signatures. */
  lemma SemanticKeysAgreeIff(h: Hash, q1: string, c1: CacheContext, q2: string, c2: CacheContext)
    requires Injective(h) && BarFree(h)
    ensures SemanticKey(h, h(TrimSpace(q1)), ContextHash(h, c1)) == SemanticKey(h, h(TrimSpace(q2)), ContextHash(h, c2))
            <==> TrimSpace(q1) == TrimSpace(q2) && ContextHash(h, c1) == ContextHash(h, c2)
  {
    hide TrimSpace, ContextSignature;
    var a, b, c, d := h(TrimSpace(q1)), ContextHash(h, c1), h(TrimSpace(q2)), ContextHash(h, c2);
    if SemanticKey(h, a, b) == SemanticKey(h, c, d) {
      assert a + ['|'] + b + ['|'] + "semantic-v1" == c + ['|'] + d + ['|'] + "semantic-v1";
      SplitAtLast(a + ['|'] + b, c + ['|'] + d, "semantic-v1", "semantic-v1", '|');
      SplitAtLast(a, c, b, d, '|');
    }
  }

  lemma {:induction false} JoinBarsOfConcat(p: seq<string>, s: seq<string>)
    requires p != [] && s != []
    ensures JoinBars(p + s) == JoinBars(p) + ['|'] + JoinBars(s)
    decreases |s|
  {
    var n := |s| - 1;
    assert (p + s)[..|p| + n] == p + s[..n];
    if n > 0 {
      JoinBarsOfConcat(p, s[..n]);
    } else {
      assert p + s[..0] == p;
    }
  }

  lemma OnlyTheJointMatters(p1: seq<string>, p2: seq<string>)
    requires |p1| == |p2| == 8
    requires p1[0] == p2[0] && p1[3..] == p2[3..] && p1[1] + ['|'] + p1[2] == p2[1] + ['|'] + p2[2]
    ensures JoinBars(p1) == JoinBars(p2)
  {
    Regroup(p1);
    Regroup(p2);
  }

  lemma Regroup(p: seq<string>)
    requires |p| == 8
    ensures JoinBars(p) == p[0] + ['|'] + (p[1] + ['|'] + p[2] + ['|'] + JoinBars(p[3..]))
  {
    assert p == [p[0]] + p[1..];
    JoinBarsOfConcat([p[0]], p[1..]);
    assert p[1..] == [p[1], p[2]] + p[3..];
    JoinBarsOfConcat([p[1], p[2]], p[3..]);
    assert [p[1], p[2]] == [p[1]] + [p[2]];
    JoinBarsOfConcat([p[1]], [p[2]]);
  }

  lemma FieldsMoved(c: CacheContext, a: string, b: string, d: string)
    requires Trimmed(a) && Trimmed(b) && Trimmed(d) && a != "" && b != "" && d != ""
    ensures var c1 := c.(votationID := a + "|object=" + b, objectID := d);
            var c2 := c.(votationID := a, objectID := b + "|object=" + d);
            var f1, f2 := Fields8(c1), Fields8(c2);
            && f1[1] == a + "|object=" + b && f1[2] == d && f2[1] == a && f2[2] == b + "|object=" + d
            && f1[0] == f2[0] && f1[3..] == f2[3..] && f1[1] != f2[1]
  {
    var c1 := c.(votationID := a + "|object=" + b, objectID := d);
    var c2 := c.(votationID := a, objectID := b + "|object=" + d);
    TrimSpaceFixedPoints(c1.votationID);
    TrimSpaceFixedPoints(c1.objectID);
    TrimSpaceFixedPoints(c2.votationID);
    TrimSpaceFixedPoints(c2.objectID);
    hide TrimSpace, IntToString, ToLower, ToUpper;
    assert |Fields8(c1)[1]| != |Fields8(c2)[1]|;
  }

  lemma PartsMoved(f1: seq<string>, f2: seq<string>, a: string, b: string, d: string)
    requires |f1| == |f2| == 8 && f1[0] == f2[0] && f1[3..] == f2[3..]
    requires f1[1] == a + "|object=" + b && f1[2] == d && f2[1] == a && f2[2] == b + "|object=" + d
    ensures var p1, p2 := Parts(LABELS, f1), Parts(LABELS, f2);
            && |p1| == |p2| == 8 && p1[0] == p2[0] && p1[3..] == p2[3..]
            && p1[1] + ['|'] + p1[2] == p2[1] + ['|'] + p2[2]
  {
    var p1, p2 := Parts(LABELS, f1), Parts(LABELS, f2);
    assert p1[1] == "votation=" + f1[1] && p1[2] == "object=" + f1[2];
    assert p2[1] == "votation=" + f2[1] && p2[2] == "object=" + f2[2];
    assert "|object=" == ['|'] + "object=";
    assert p1[1] + ['|'] + p1[2] == p2[1] + ['|'] + p2[2];
    assert p1[3..] == p2[3..];
  }

  /** The condition is needed: a bar in one field can pass for the border to the next, and two different
      contexts then share every key. */
  lemma BarsInAFieldCollide(question: string, c: CacheContext, a: string, b: string, d: string)
    requires Trimmed(a) && Trimmed(b) && Trimmed(d) && a != "" && b != "" && d != ""
    ensures var c1 := c.(votationID := a + "|object=" + b, objectID := d);
            var c2 := c.(votationID := a, objectID := b + "|object=" + d);
            ExactPreimage(question, c1) == ExactPreimage(question, c2) && !SameContext(c1, c2)
  {
    SameFieldsIff(c.(votationID := a + "|object=" + b, objectID := d),
                  c.(votationID := a, objectID := b + "|object=" + d));
    FieldsMoved(c, a, b, d);
    var f1 := Fields8(c.(votationID := a + "|object=" + b, objectID := d));
    var f2 := Fields8(c.(votationID := a, objectID := b + "|object=" + d));
    hide TrimSpace, IntToString, ToLower, ToUpper, Fields8, JoinBars, Trimmed, Parts, SameContext;
    PartsMoved(f1, f2, a, b, d);
    OnlyTheJointMatters(Parts(LABELS, f1), Parts(LABELS, f2));
  }
}
