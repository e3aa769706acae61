/** Documents of the corpus, their language codes, and the hashes the indexer attaches to them.
    SHA-256 is a parameter: any function from strings to strings. Metadata maps are records of the keys
    the indexer reads back, an absent key being the empty string. */
module Documents {
  import opened Text

  type Hash = string -> string

  datatype Option<+T> = None | Some(value: T)

  /** The errors of the indexing code, and those of the services it calls. */
  datatype Error =
    | NoSupportedLanguages | NoSourceTranslation | InvalidTargetLanguage
    | InvalidChunkSettings | NoDocuments | NoChunks
    | ServiceError(message: string)

  datatype Result<+T> = Success(value: T) | Failure(error: Error)

  /** Applies `f` to every element, stopping at the first failure. */
  function Collect<A, B>(f: A -> Result<B>, xs: seq<A>): Result<seq<B>> {
    if xs == [] then Success([])
    else
      var init := Collect(f, xs[..|xs| - 1]);
      if init.Failure? then init
      else
        var last := f(xs[|xs| - 1]);
        if last.Failure? then Failure(last.error) else Success(init.value + [last.value])
  }

  /** Collecting succeeds exactly when every call does, and then holds the results in order. */
  lemma {:induction false} CollectIsPointwise<A, B>(f: A -> Result<B>, xs: seq<A>)
    ensures Collect(f, xs).Success? <==> forall i | 0 <= i < |xs| :: f(xs[i]).Success?
    ensures Collect(f, xs).Success? ==> |Collect(f, xs).value| == |xs|
    ensures Collect(f, xs).Success? ==> forall i | 0 <= i < |xs| :: f(xs[i]) == Success(Collect(f, xs).value[i])
  {
    if xs != [] {
      var init := xs[..|xs| - 1];
      CollectIsPointwise(f, init);
      if Collect(f, xs).Failure? && Collect(f, init).Failure? {
        var i :| 0 <= i < |init| && f(init[i]).Failure?;
        assert f(xs[i]).Failure?;
      }
    }
  }

  lemma {:induction false} CollectFailureSpreads<A, B>(f: A -> Result<B>, xs: seq<A>, n: nat)
    requires n <= |xs| && Collect(f, xs[..n]).Failure?
    ensures Collect(f, xs) == Collect(f, xs[..n])
    decreases |xs| - n
  {
    if n < |xs| {
      assert xs[..n + 1][..n] == xs[..n];
      CollectFailureSpreads(f, xs, n + 1);
    } else {
      assert xs[..n] == xs;
    }
  }

  datatype SourceMetadata = SourceMetadata(
    sourceSystem: string, externalID: string, sourceURI: string,
    issuedAt: string, modifiedAt: string,        // formatted in UTC, "" when nil
    fingerprint: string, confidence: string)     // the two index keys of Extra

  datatype Metadata = Metadata(
    contentHash: string, fingerprint: string, confidence: string,
    status: string, provider: string, sourceLang: string, sourceHash: string, displayTitle: string)

  datatype Document = Document(
    id: string, translationID: string, language: string, title: string, content: string,
    source: SourceMetadata, metadata: Metadata)

  /** What a previous run left in the database about one document. */
  datatype TranslationState = TranslationState(
    translationID: string, title: string, content: string,
    status: string, provider: string, sourceHash: string, contentHash: string)

  datatype DocumentState = DocumentState(
    fingerprint: string, confidence: string, complete: bool, chunkCount: int,
    translations: map<string, TranslationState>)

  /** The zero value of Go's struct: what a lookup of an unknown document yields. */
  const NO_STATE := DocumentState("", "", false, 0, map[])

  const READY := "ready"
  const HIGH := "high"
  const LOW := "low"

  function NormalizeNonEmpty(value: string, fallback: string): string {
    if TrimSpace(value) == "" then fallback else value
  }

  // ----- Language codes (backend/internal/langs) -----

  /** Lower case, exact for every character whose lower case is an ASCII letter. */
  function LowerChar(c: char): char {
    if 'A' <= c <= 'Z' then c + 32 as char
    else if c == '\U{130}' then 'i'
    else if c == '\U{212A}' then 'k'
    else c
  }

  function ToLower(s: string): (r: string)
    ensures |r| == |s|
  {
    seq(|s|, i requires 0 <= i < |s| => LowerChar(s[i]))
  }

  predicate Letter(c: char) {
    'a' <= c <= 'z'
  }

  /** The pattern `^[a-z]{2}(-[a-z]{2})?$`. */
  predicate IsCode(s: string) {
    || (|s| == 2 && Letter(s[0]) && Letter(s[1]))
    || (|s| == 5 && Letter(s[0]) && Letter(s[1]) && s[2] == '-' && Letter(s[3]) && Letter(s[4]))
  }

  function Normalize(code: string): (r: string)
    ensures r == "" || IsCode(r)
  {
    var n := ToLower(TrimSpace(code));
    if IsCode(n) then n else ""
  }

  function NormalizeOrFallback(raw: string, fallback: string, supported: seq<string>): (r: string)
    ensures r == fallback || (r in supported && IsCode(r)) || (supported == [] && IsCode(r))
  {
    var c := Normalize(raw);
    if c == "" then fallback
    else if supported == [] || c in supported then c
    else fallback
  }

  /** A raw language means the code it spells, up to white space and case; it resolves to that code when no list of
      supported codes is given or the list holds it, and to the fallback otherwise. */
  lemma LanguagesResolve(raw: string, fallback: string, supported: seq<string>, code: string)
    requires IsCode(code)
    ensures Normalize(raw) == code <==> ToLower(TrimSpace(raw)) == code
    ensures ToLower(TrimSpace(raw)) == code ==>
              NormalizeOrFallback(raw, fallback, supported)
              == if supported == [] || code in supported then code else fallback
    ensures !IsCode(ToLower(TrimSpace(raw))) ==> NormalizeOrFallback(raw, fallback, supported) == fallback
  {
    hide TrimSpace;
  }

  predicate IsSmall(c: char) { c in "abcdefghijklmnopqrstuvwxyz" }

  predicate TwoLetters(s: string) { |s| == 2 && IsSmall(s[0]) && IsSmall(s[1]) }

  lemma LettersAreListed(c: char)
    ensures Letter(c) <==> IsSmall(c)
  {
    if Letter(c) {
      assert "abcdefghijklmnopqrstuvwxyz"[c as int - 'a' as int] == c;
    }
  }

  /** A code is two small letters, or two and two joined by a hyphen. */
  lemma CodesAreSpelledOut(s: string)
    ensures IsCode(s) <==> TwoLetters(s) || (|s| == 5 && TwoLetters(s[..2]) && s[2] == '-' && TwoLetters(s[3..]))
  {
    hide Letter, IsSmall;
    forall i | 0 <= i < |s|
      ensures Letter(s[i]) <==> IsSmall(s[i])
    {
      LettersAreListed(s[i]);
    }
  }

  /** Characters whose lower case is `l`: itself, its capital, and for i and k one more each, the dotted capital I and
      the sign of the kelvin. */
  predicate Spells(c: char, l: char) {
    || c == l
    || (IsSmall(l) && c as int == l as int - 32)
    || (l == 'i' && c == '\U{130}') || (l == 'k' && c == '\U{212A}')
  }

  lemma LowerCharSpells(c: char, l: char)
    requires Letter(l) || l == '-'
    ensures LowerChar(c) == l <==> Spells(c, l)
  {
    LettersAreListed(l);
  }

  /** What normalises to a code is what spells it, letter by letter, up to case and surrounding white space. */
  lemma NormalizeSpells(raw: string, code: string)
    requires IsCode(code)
    ensures Normalize(raw) == code
            <==> |TrimSpace(raw)| == |code| && forall i | 0 <= i < |code| :: Spells(TrimSpace(raw)[i], code[i])
  {
    var t := TrimSpace(raw);
    LanguagesResolve(raw, "", [], code);
    forall i | 0 <= i < |code| && i < |t|
      ensures ToLower(t)[i] == code[i] <==> Spells(t[i], code[i])
    {
      LowerCharSpells(t[i], code[i]);
    }
    hide TrimSpace, Spells, LowerChar, Normalize;
  }

  lemma CodesAreTrimmed(l: string)
    requires IsCode(l)
    ensures TrimSpace(l) == l && Normalize(l) == l
  {
    TrimSpaceFixedPoints(l);
    assert ToLower(l) == l;
  }

  /** `buildTranslationID`: a language the process does not know is filed under French. */
  function KnownLanguage(lang: string, known: seq<string>): string {
    var l := Normalize(lang);
    if l == "" || l !in known then "fr" else l
  }

  function BuildTranslationID(documentID: string, lang: string, known: seq<string>): string {
    documentID + ":" + KnownLanguage(lang, known)
  }

  /** Two variants of one document get the same translation id exactly when the process files their
      languages under the same code. */
  lemma TranslationIDsCollideIff(id: string, l1: string, l2: string, known: seq<string>)
    ensures BuildTranslationID(id, l1, known) == BuildTranslationID(id, l2, known)
       <==> KnownLanguage(l1, known) == KnownLanguage(l2, known)
  {
    var k1, k2 := KnownLanguage(l1, known), KnownLanguage(l2, known);
    assert (id + ":" + k1)[|id| + 1..] == k1;
    assert (id + ":" + k2)[|id| + 1..] == k2;
  }

  // ----- Hashes (backend/internal/rag/index_skip.go) -----

  function ContentPreimage(doc: Document): string {
    TrimSpace(doc.language) + "|" + TrimSpace(doc.title) + "|" + NormalizeWhitespace(doc.content)
  }

  function ContentHash(h: Hash, doc: Document): string {
    if TrimSpace(doc.title) == "" && NormalizeWhitespace(doc.content) == "" then ""
    else h(ContentPreimage(doc))
  }

  function TranslationSourceHash(h: Hash, sourceLang: string, title: string, content: string): string {
    h(TrimSpace(sourceLang) + "|" + TrimSpace(title) + "|" + TrimSpace(content))
  }

  function FingerprintPreimage(s: SourceMetadata): string {
    TrimSpace(s.sourceSystem) + "|" + TrimSpace(s.externalID) + "|" + TrimSpace(s.sourceURI) + "|" + s.issuedAt
    + "|" + s.modifiedAt
  }

  /** `sourceFingerprintForDocument`. */
  function SourceFingerprint(h: Hash, s: SourceMetadata): (string, string) {
    var base := FingerprintPreimage(s);
    if forall i | 0 <= i < |base| :: base[i] == '|' then ("", LOW)
    else (h(base), if s.issuedAt != "" || s.modifiedAt != "" then HIGH else LOW)
  }

  function WithIndexMetadata(h: Hash, doc: Document): (r: Document)
    ensures r.metadata.status == doc.metadata.status && r.metadata.sourceHash == doc.metadata.sourceHash
    ensures r == doc.(metadata := r.metadata, source := r.source)
    ensures ContentHash(h, doc) != "" ==> r.metadata.contentHash == ContentHash(h, doc)
  {
    var contentHash := ContentHash(h, doc);
    var (fingerprint, confidence) := SourceFingerprint(h, doc.source);
    var m := if contentHash != "" then doc.metadata.(contentHash := contentHash) else doc.metadata;
    if fingerprint != "" then
      doc.(metadata := m.(fingerprint := fingerprint, confidence := confidence),
           source := doc.source.(fingerprint := fingerprint, confidence := confidence))
    else doc.(metadata := m)
  }

  function PrepareDocuments(h: Hash, docs: seq<Document>): (r: seq<Document>)
    ensures |r| == |docs|
  {
    seq(|docs|, i requires 0 <= i < |docs| => WithIndexMetadata(h, docs[i]))
  }

  /** Preparing prepared documents changes nothing: the hash and the fingerprint they carry are those of their own
      text and source. The filter relies on it, which prepares what the command has prepared before. */
  lemma PreparingTwice(h: Hash, docs: seq<Document>)
    ensures PrepareDocuments(h, PrepareDocuments(h, docs)) == PrepareDocuments(h, docs)
    ensures forall i | 0 <= i < |docs| ::
              var d := PrepareDocuments(h, docs)[i];
              && (ContentHash(h, docs[i]) != "" ==> d.metadata.contentHash == ContentHash(h, d))
              && (SourceFingerprint(h, docs[i].source).0 != "" ==>
                    && (d.metadata.fingerprint, d.metadata.confidence) == SourceFingerprint(h, d.source)
                    && d.source.fingerprint == d.metadata.fingerprint)
  {
    hide TrimSpace, NormalizeWhitespace;
    forall i | 0 <= i < |docs|
      ensures WithIndexMetadata(h, WithIndexMetadata(h, docs[i])) == WithIndexMetadata(h, docs[i])
    {
    }
  }

  /** A hash without collisions. */
  ghost predicate Injective(h: Hash) {
    forall x, y | h(x) == h(y) :: x == y
  }

  /** A hash that always yields a visible string, as a hexadecimal digest does. */
  ghost predicate Digest(h: Hash) {
    forall s :: h(s) != "" && Trimmed(h(s))
  }
}
