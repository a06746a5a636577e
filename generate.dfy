/** Extraction of an XML document from a language-model response
    (`extract_urdf_from_response` in src/generate.py and the same search in
    `generate_mjcf` / `generate_sdf` of src/convert.py).

    The search is `re.search(r"<\?xml[\s\S]*?CLOSE", text, re.I | re.S)`: the
    leftmost `<?xml`, then the lazily-nearest closing tag after it. */
module Generate {
  import opened Wrappers
  import opened Strings

  const XmlDecl: string := "<?xml"

  /** The closing tags the three callers search for all look like `</name>`. */
  predicate IsClosingTag(c: string) {
    |c| >= 3 && c[0] == '<' && c[1] == '/' && c[|c| - 1] == '>'
  }

  /** Where the first `<?xml` starts (case-insensitive). */
  function DocStart(text: string): Option<nat> {
    Find(text, XmlDecl, 0, true)
  }

  /** Where the first closing tag after that `<?xml` starts. */
  function DocClose(text: string, closing: string): Option<nat> {
    match DocStart(text)
    case None => None
    case Some(s) => Find(text, closing, s + |XmlDecl|, true)
  }

  /** The regular expression matches somewhere in `text`: an `<?xml` with the
      closing tag somewhere after it (the reference reading of the pattern). */
  ghost predicate RegexMatches(text: string, closing: string) {
    exists p, q :: OccursAt(text, p, XmlDecl, true) && p + |XmlDecl| <= q && OccursAt(text, q, closing, true)
  }

  /** What `re.search(...)` matched, or the whole text when nothing
      matches. */
  function Matched(text: string, closing: string): string
  {
    match DocClose(text, closing)
    case Some(e) => text[DocStart(text).value..e + |closing|]
    case None => text
  }

  /** The match (or the whole text), stripped. */
  function ExtractDocument(text: string, closing: string): string
  {
    Strip(Matched(text, closing))
  }

  /** src/generate.py: `extract_urdf_from_response`. */
  function ExtractUrdfFromResponse(text: string): string {
    ExtractDocument(text, "</robot>")
  }

  /** src/convert.py: the extraction in `generate_mjcf`. */
  function ExtractMjcf(text: string): string {
    ExtractDocument(text, "</mujoco>")
  }

  /** src/convert.py: the extraction in `generate_sdf`. */
  function ExtractSdf(text: string): string {
    ExtractDocument(text, "</sdf>")
  }

  // ---------------------------------------------------------------------------
  // Properties
  // ---------------------------------------------------------------------------

  /** The search finds a document exactly when the pattern matches somewhere. */
  lemma DocCloseIffRegexMatches(text: string, closing: string)
    ensures DocClose(text, closing).Some? <==> RegexMatches(text, closing)
  {
    if DocClose(text, closing).Some? {
      var s := DocStart(text).value;
      var q := DocClose(text, closing).value;
      assert OccursAt(text, s, XmlDecl, true) && s + |XmlDecl| <= q && OccursAt(text, q, closing, true);
    }
    if RegexMatches(text, closing) {
      var p, q :| OccursAt(text, p, XmlDecl, true) && p + |XmlDecl| <= q && OccursAt(text, q, closing, true);
      assert DocStart(text).Some?;
    }
  }

  /** The characters of a case-insensitive `<?xml` occurrence, lower-cased. */
  lemma DeclChars(r: string)
    requires OccursAt(r, 0, XmlDecl, true)
    ensures LowerChar(r[0]) == '<' && LowerChar(r[1]) == '?' && LowerChar(r[2]) == 'x'
    ensures LowerChar(r[3]) == 'm' && LowerChar(r[4]) == 'l'
  {
    assert CharMatch(r[0 + 0], XmlDecl[0], true) && CharMatch(r[0 + 1], XmlDecl[1], true);
    assert CharMatch(r[0 + 2], XmlDecl[2], true) && CharMatch(r[0 + 3], XmlDecl[3], true);
    assert CharMatch(r[0 + 4], XmlDecl[4], true);
  }

  /** A closing tag cannot overlap the `<?xml` at the start of the match. */
  lemma NoCloseInDecl(r: string, closing: string, k: int)
    requires IsClosingTag(closing) && OccursAt(r, 0, XmlDecl, true)
    requires 0 <= k < |XmlDecl|
    ensures !OccursAt(r, k, closing, true)
  {
    DeclChars(r);
    if k == 0 {
      assert !CharMatch(r[k + 1], closing[1], true);
    } else {
      assert !CharMatch(r[k + 0], closing[0], true);
    }
  }

  /** On a match the result is `text[s..e]` from the first `<?xml` to the end
      of the first closing tag after it: stripping changes nothing. */
  lemma ExtractOnMatch(text: string, closing: string)
    requires IsClosingTag(closing) && DocClose(text, closing).Some?
    ensures var s := DocStart(text).value;
            var e := DocClose(text, closing).value + |closing|;
            && s + |XmlDecl| + |closing| <= e <= |text|
            && ExtractDocument(text, closing) == text[s..e]
  {
    ExtractOnMatchAt(text, closing, DocStart(text).value, DocClose(text, closing).value);
  }

  lemma ExtractOnMatchAt(text: string, closing: string, s: nat, q: nat)
    requires IsClosingTag(closing) && DocStart(text) == Some(s) && DocClose(text, closing) == Some(q)
    ensures s + |XmlDecl| + |closing| <= q + |closing| <= |text|
    ensures ExtractDocument(text, closing) == text[s..q + |closing|]
  {
    MatchEnds(text, closing, s, q);
    MatchIsTrimmed(text, s, q + |closing|);
  }

  /** The match starts with `<` and ends with `>`. */
  lemma MatchEnds(text: string, closing: string, s: nat, q: nat)
    requires IsClosingTag(closing) && DocStart(text) == Some(s) && DocClose(text, closing) == Some(q)
    ensures s + |XmlDecl| <= q && q + |closing| <= |text|
    ensures text[s] == '<' && text[q + |closing| - 1] == '>'
    ensures Matched(text, closing) == text[s..q + |closing|]
  {
    MatchPositions(text, closing, s, q);
    StartsWithLt(text, s);
    EndsWithGt(text, q, closing);
  }

  /** Where the match lies. */
  lemma MatchPositions(text: string, closing: string, s: nat, q: nat)
    requires DocStart(text) == Some(s) && DocClose(text, closing) == Some(q)
    ensures OccursAt(text, s, XmlDecl, true) && OccursAt(text, q, closing, true)
    ensures s + |XmlDecl| <= q && q + |closing| <= |text|
    ensures Matched(text, closing) == text[s..q + |closing|]
  {
  }

  /** A stretch from a `<` to a `>` has nothing to strip. */
  lemma MatchIsTrimmed(text: string, s: int, e: int)
    requires 0 <= s < e <= |text| && text[s] == '<' && text[e - 1] == '>'
    ensures Strip(text[s..e]) == text[s..e]
  {
    var r := text[s..e];
    assert r[0] == '<' && r[|r| - 1] == '>';
    StripNoOp(r);
  }

  /** An `<?xml` occurrence starts with `<`, which is not whitespace. */
  lemma StartsWithLt(t: string, p: int)
    requires OccursAt(t, p, XmlDecl, true)
    ensures t[p] == '<'
  {
    assert CharMatch(t[p + 0], XmlDecl[0], true);
  }

  /** A closing-tag occurrence ends with `>`, which is not whitespace. */
  lemma EndsWithGt(t: string, q: int, closing: string)
    requires IsClosingTag(closing) && OccursAt(t, q, closing, true)
    ensures t[q + |closing| - 1] == '>'
  {
    assert CharMatch(t[q + (|closing| - 1)], closing[|closing| - 1], true);
  }

  /** A document has the shape the search produces: it starts with `<?xml`,
      ends with the closing tag and holds no other closing tag. */
  predicate IsDocument(r: string, closing: string) {
    && |XmlDecl| + |closing| <= |r|
    && OccursAt(r, 0, XmlDecl, true)
    && OccursAt(r, |r| - |closing|, closing, true)
    && (forall k :: 0 <= k < |r| - |closing| ==> !OccursAt(r, k, closing, true))
  }

  /** The matched stretch of text is a document. */
  lemma MatchIsDocument(text: string, closing: string)
    requires IsClosingTag(closing) && DocClose(text, closing).Some?
    ensures DocStart(text).value <= DocClose(text, closing).value + |closing| <= |text|
    ensures IsDocument(text[DocStart(text).value..DocClose(text, closing).value + |closing|], closing)
  {
    MatchIsDocumentAt(text, closing, DocStart(text).value, DocClose(text, closing).value);
  }

  lemma MatchIsDocumentAt(text: string, closing: string, s: nat, q: nat)
    requires IsClosingTag(closing) && DocStart(text) == Some(s) && DocClose(text, closing) == Some(q)
    ensures s <= q + |closing| <= |text|
    ensures IsDocument(text[s..q + |closing|], closing)
  {
    MatchPositions(text, closing, s, q);
    var e := q + |closing|;
    var r := text[s..e];
    OccursInSlice(text, s, e, 0, XmlDecl, true);
    OccursInSlice(text, s, e, |r| - |closing|, closing, true);
    forall k | 0 <= k < |r| - |closing| ensures !OccursAt(r, k, closing, true) {
      MatchHasNoEarlyClose(text, closing, s, q, k);
    }
  }

  /** No closing tag starts inside the match before its last one. */
  lemma MatchHasNoEarlyClose(text: string, closing: string, s: nat, q: nat, k: int)
    requires IsClosingTag(closing) && DocStart(text) == Some(s) && DocClose(text, closing) == Some(q)
    requires 0 <= k < q - s
    ensures q + |closing| <= |text|
    ensures !OccursAt(text[s..q + |closing|], k, closing, true)
  {
    MatchPositions(text, closing, s, q);
    var e := q + |closing|;
    if k < |XmlDecl| {
      OccursInSlice(text, s, e, 0, XmlDecl, true);
      NoCloseInDecl(text[s..e], closing, k);
    } else {
      OccursInSlice(text, s, e, k, closing, true);
      assert !OccursAt(text, s + k, closing, true);
    }
  }

  /** On a match the result is a document. */
  lemma ExtractOnMatchIsDocument(text: string, closing: string)
    requires IsClosingTag(closing) && DocClose(text, closing).Some?
    ensures IsDocument(ExtractDocument(text, closing), closing)
  {
    ExtractOnMatch(text, closing);
    MatchIsDocument(text, closing);
  }

  /** Extracting from a document gives the document back. */
  lemma ExtractOfDocument(r: string, closing: string)
    requires IsClosingTag(closing) && IsDocument(r, closing)
    ensures ExtractDocument(r, closing) == r
  {
    DocumentSearch(r, closing);
    ExtractOnMatchAt(r, closing, 0, |r| - |closing|);
    assert r[0..|r|] == r;
  }

  /** In a document the search finds the `<?xml` at 0 and the final closing
      tag. */
  lemma DocumentSearch(r: string, closing: string)
    requires IsDocument(r, closing)
    ensures DocStart(r) == Some(0) && DocClose(r, closing) == Some(|r| - |closing|)
  {
    FindIsFirst(r, XmlDecl, 0, 0, true);
    FindIsFirst(r, closing, |XmlDecl|, |r| - |closing|, true);
  }

  /** With no match the result is the whole text, stripped. */
  lemma ExtractOnNoMatch(text: string, closing: string)
    requires !RegexMatches(text, closing)
    ensures ExtractDocument(text, closing) == Strip(text)
  {
    DocCloseIffRegexMatches(text, closing);
  }

  /** The result is always one contiguous piece of the input. */
  lemma ExtractIsSlice(text: string, closing: string)
    requires IsClosingTag(closing)
    ensures exists lo, hi :: 0 <= lo <= hi <= |text| && ExtractDocument(text, closing) == text[lo..hi]
  {
    if DocClose(text, closing).Some? {
      ExtractOnMatch(text, closing);
      var s := DocStart(text).value;
      var e := DocClose(text, closing).value + |closing|;
      assert ExtractDocument(text, closing) == text[s..e];
    } else {
      StripIsSlice(text);
      assert ExtractDocument(text, closing) == text[StripFrom(text)..StripTo(text)];
    }
  }

  /** A match inside a slice is a match in the whole text. */
  lemma RegexMatchesInSlice(text: string, lo: int, hi: int, closing: string)
    requires 0 <= lo <= hi <= |text| && RegexMatches(text[lo..hi], closing)
    ensures RegexMatches(text, closing)
  {
    var p, q :| OccursAt(text[lo..hi], p, XmlDecl, true) && p + |XmlDecl| <= q && OccursAt(text[lo..hi], q, closing, true);
    OccursInSlice(text, lo, hi, p, XmlDecl, true);
    OccursInSlice(text, lo, hi, q, closing, true);
    assert OccursAt(text, lo + p, XmlDecl, true) && lo + p + |XmlDecl| <= lo + q && OccursAt(text, lo + q, closing, true);
  }

  /** Extracting from an extracted document gives it back unchanged. */
  lemma ExtractIdempotent(text: string, closing: string)
    requires IsClosingTag(closing)
    ensures ExtractDocument(ExtractDocument(text, closing), closing) == ExtractDocument(text, closing)
  {
    var r := ExtractDocument(text, closing);
    if DocClose(text, closing).Some? {
      ExtractOnMatchIsDocument(text, closing);
      ExtractOfDocument(r, closing);
    } else {
      DocCloseIffRegexMatches(text, closing);
      StripIsSlice(text);
      if RegexMatches(r, closing) {
        RegexMatchesInSlice(text, StripFrom(text), StripTo(text), closing);
      }
      DocCloseIffRegexMatches(r, closing);
      StripIdempotent(text);
    }
  }
}
