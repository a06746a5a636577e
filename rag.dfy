/** The TF-IDF retrieval of src/rag.py: tokenizing, term frequencies,
    document frequencies, sparse vectors and their cosine similarity, and the
    index that ranks the URDF snippets for a request. Reading the snippet
    files is not part of this model: the snippets come in as values, and
    `math.log` / `math.sqrt` come in as function parameters. */
module Rag {
  import opened Wrappers
  import opened Strings
  import opened Pieces

  // ---------------------------------------------------------------------------
  // _tokenize: re.findall(r'[a-z0-9]+', text.lower())
  // ---------------------------------------------------------------------------

  predicate IsTokenChar(c: char) {
    ('a' <= c <= 'z') || ('0' <= c <= '9')
  }

  predicate IsToken(w: string) {
    |w| > 0 && forall i :: 0 <= i < |w| ==> IsTokenChar(w[i])
  }

  /** The length of the run of token characters that `s` starts with. */
  function RunLength(s: string): (n: nat)
    ensures n <= |s|
    ensures forall i :: 0 <= i < n ==> IsTokenChar(s[i])
    ensures n == |s| || !IsTokenChar(s[n])
    ensures s != [] && IsTokenChar(s[0]) ==> n > 0
  {
    if s == [] || !IsTokenChar(s[0]) then 0 else 1 + RunLength(s[1..])
  }

  /** The maximal runs of token characters of `s`, left to right. */
  function Tokens(s: string): (r: seq<string>)
    ensures forall i :: 0 <= i < |r| ==> IsToken(r[i])
    decreases |s|
  {
    if s == [] then []
    else if !IsTokenChar(s[0]) then Tokens(s[1..])
    else
      var n := RunLength(s);
      var rest := Tokens(s[n..]);
      RunIsToken(s, n);
      AllTokensCons(s[..n], rest);
      [s[..n]] + rest
  }

  lemma RunIsToken(s: string, n: nat)
    requires s != [] && IsTokenChar(s[0]) && n == RunLength(s)
    ensures IsToken(s[..n])
  {
  }

  lemma AllTokensCons(w: string, rest: seq<string>)
    requires IsToken(w) && forall i :: 0 <= i < |rest| ==> IsToken(rest[i])
    ensures forall i :: 0 <= i < |[w] + rest| ==> IsToken(([w] + rest)[i])
  {
    forall i | 0 <= i < |[w] + rest| ensures IsToken(([w] + rest)[i]) {
      if i > 0 {
        assert ([w] + rest)[i] == rest[i - 1];
      }
    }
  }

  /** src/rag.py `_tokenize`. */
  function Tokenize(text: string): seq<string> {
    Tokens(Lower(text))
  }

  /** The token characters of `s`, in order. */
  function TokenChars(s: string): string {
    if s == [] then []
    else (if IsTokenChar(s[0]) then [s[0]] else []) + TokenChars(s[1..])
  }

  /** `1` where a run of token characters starts, for each position. */
  function RunStarts(s: string, prevIsToken: bool): nat {
    if s == [] then 0
    else (if IsTokenChar(s[0]) && !prevIsToken then 1 else 0) + RunStarts(s[1..], IsTokenChar(s[0]))
  }

  lemma {:induction false} TokenCharsAppend(a: string, b: string)
    ensures TokenChars(a + b) == TokenChars(a) + TokenChars(b)
    decreases |a|
  {
    if a == [] {
      assert a + b == b;
    } else {
      assert (a + b)[0] == a[0] && (a + b)[1..] == a[1..] + b;
      TokenCharsAppend(a[1..], b);
    }
  }

  lemma {:induction false} TokenCharsOfRun(w: string)
    requires forall i :: 0 <= i < |w| ==> IsTokenChar(w[i])
    ensures TokenChars(w) == w
    decreases |w|
  {
    if w != [] {
      TokenCharsOfRun(w[1..]);
    }
  }

  /** Tokenizing loses no token character and adds none: the tokens glued
      together are exactly the token characters of the text. */
  lemma {:induction false} TokensKeepTokenChars(s: string)
    ensures Concat(Tokens(s)) == TokenChars(s)
    decreases |s|
  {
    if s != [] {
      if !IsTokenChar(s[0]) {
        TokensKeepTokenChars(s[1..]);
      } else {
        var n := RunLength(s);
        TokensKeepTokenChars(s[n..]);
        assert s == s[..n] + s[n..];
        TokenCharsAppend(s[..n], s[n..]);
        TokenCharsOfRun(s[..n]);
        var rest := Tokens(s[n..]);
        assert Tokens(s) == [s[..n]] + rest;
        assert ([s[..n]] + rest)[1..] == rest;
      }
    }
  }

  /** Inside a run, the count of run starts does not change. */
  lemma {:induction false} RunStartsInRun(s: string, k: nat, n: nat)
    requires k <= n <= |s| && forall i :: k <= i < n ==> IsTokenChar(s[i])
    ensures RunStarts(s[k..], true) == RunStarts(s[n..], true)
    decreases n - k
  {
    if k < n {
      assert s[k..][0] == s[k] && s[k..][1..] == s[k + 1..];
      RunStartsInRun(s, k + 1, n);
    }
  }

  /** The tokens are the maximal runs: there is one token per position where
      a run of token characters starts. */
  lemma {:induction false} TokensAreRuns(s: string)
    ensures |Tokens(s)| == RunStarts(s, false)
    decreases |s|
  {
    if s != [] {
      if !IsTokenChar(s[0]) {
        TokensAreRuns(s[1..]);
      } else {
        var n := RunLength(s);
        TokensAreRuns(s[n..]);
        RunStartsInRun(s, 1, n);
        assert s[1..] == s[1..];
        if n < |s| {
          assert s[n..][0] == s[n] && s[n..][1..] == s[n + 1..];
        }
      }
    }
  }

  // ---------------------------------------------------------------------------
  // Counting: Counter(tokens) in first-occurrence order
  // ---------------------------------------------------------------------------

  /** How often `t` occurs in `s`. */
  function Count(s: seq<string>, t: string): nat
    ensures Count(s, t) <= |s|
  {
    if s == [] then 0
    else Count(s[..|s| - 1], t) + (if s[|s| - 1] == t then 1 else 0)
  }

  predicate NoDuplicates(d: seq<string>) {
    forall i, j :: 0 <= i < j < |d| ==> d[i] != d[j]
  }

  /** The distinct elements of `s` in order of first occurrence (the key order
      of a `Counter` or a dict filled from `s`). */
  function Distinct(s: seq<string>): (d: seq<string>)
    ensures NoDuplicates(d)
    ensures forall t :: t in d <==> t in s
  {
    if s == [] then []
    else
      var e := Distinct(s[..|s| - 1]);
      var x := s[|s| - 1];
      assert s == s[..|s| - 1] + [x];
      if x in e then e else e + [x]
  }

  lemma {:induction false} CountAbsent(s: seq<string>, t: string)
    requires t !in s
    ensures Count(s, t) == 0
  {
    if s != [] {
      assert s[..|s| - 1] + [s[|s| - 1]] == s;
      CountAbsent(s[..|s| - 1], t);
    }
  }

  lemma {:induction false} CountPresent(s: seq<string>, t: string)
    requires t in s
    ensures Count(s, t) > 0
  {
    var p := s[..|s| - 1];
    assert s == p + [s[|s| - 1]];
    if s[|s| - 1] != t {
      CountPresent(p, t);
    }
  }

  /** The counts of the terms of `d` in `s`, added up. */
  function SumCounts(d: seq<string>, s: seq<string>): nat {
    if d == [] then 0 else SumCounts(d[..|d| - 1], s) + Count(s, d[|d| - 1])
  }

  lemma {:induction false} SumCountsStep(d: seq<string>, p: seq<string>, x: string)
    requires NoDuplicates(d)
    ensures SumCounts(d, p + [x]) == SumCounts(d, p) + (if x in d then 1 else 0)
  {
    if d != [] {
      var e := d[..|d| - 1];
      var y := d[|d| - 1];
      assert d == e + [y];
      assert (p + [x])[..|p + [x]| - 1] == p;
      SumCountsStep(e, p, x);
      assert x in d <==> x in e || x == y;
      assert y !in e;
    }
  }

  /** The counts of the distinct terms add up to the number of tokens. */
  lemma {:induction false} CountsAddUp(s: seq<string>)
    ensures SumCounts(Distinct(s), s) == |s|
  {
    if s != [] {
      var p := s[..|s| - 1];
      var x := s[|s| - 1];
      assert s == p + [x];
      CountsAddUp(p);
      var e := Distinct(p);
      SumCountsStep(e, p, x);
      if x !in p {
        CountAbsent(p, x);
        assert Distinct(s) == e + [x];
        assert (e + [x])[..|e + [x]| - 1] == e;
      }
    }
  }

  // ---------------------------------------------------------------------------
  // _term_frequency
  // ---------------------------------------------------------------------------

  /** A sparse vector: the items of a dict from term to weight, in the dict's
      insertion order. A dict has each key once. */
  type Vector = v: seq<(string, real)> | NoDuplicates(Keys(v))

  function Keys(v: seq<(string, real)>): (r: seq<string>)
    ensures |r| == |v| && forall i :: 0 <= i < |v| ==> r[i] == v[i].0
  {
    seq(|v|, i requires 0 <= i < |v| => v[i].0)
  }

  /** `v[t]` for a key `t` of the dict. */
  function Lookup(v: seq<(string, real)>, t: string): real {
    if v == [] then 0.0 else if v[0].0 == t then v[0].1 else Lookup(v[1..], t)
  }

  lemma {:induction false} LookupAt(v: Vector, i: nat)
    requires i < |v|
    ensures Lookup(v, v[i].0) == v[i].1
  {
    if i > 0 {
      assert v[0].0 == Keys(v)[0] && v[i].0 == Keys(v)[i];
      var w: Vector := v[1..];
      assert Keys(w) == Keys(v)[1..];
      assert w[i - 1] == v[i];
      LookupAt(w, i - 1);
    }
  }

  /** `count / total` as a float. */
  function Ratio(count: nat, total: nat): real
    requires total > 0
  {
    count as real / total as real
  }

  /** `count / total` for each distinct term of `d`, in the order of `d`. */
  function TfItems(d: seq<string>, s: seq<string>, total: nat): (r: seq<(string, real)>)
    requires total > 0
    ensures Keys(r) == d
    ensures forall i :: 0 <= i < |d| ==> r[i].1 == Ratio(Count(s, d[i]), total)
  {
    if d == [] then []
    else
      var e := d[..|d| - 1];
      var x := d[|d| - 1];
      assert d == e + [x];
      TfItems(e, s, total) + [(x, Ratio(Count(s, x), total))]
  }

  /** src/rag.py `_term_frequency`: each distinct token with its count over the
      number of tokens (over 1 when there are none), in first-occurrence order. */
  function TermFrequency(tokens: seq<string>): (r: Vector)
    ensures Keys(r) == Distinct(tokens)
  {
    TfItems(Distinct(tokens), tokens, if tokens == [] then 1 else |tokens|)
  }

  /** Each frequency is the term's count over the number of tokens. */
  lemma TermFrequencyValue(tokens: seq<string>, i: nat)
    requires i < |TermFrequency(tokens)|
    ensures TermFrequency(tokens)[i].1 == Ratio(Count(tokens, TermFrequency(tokens)[i].0), |tokens|)
  {
    assert TermFrequency(tokens)[i].0 == Keys(TermFrequency(tokens))[i];
  }

  /** The weights of a vector added up. */
  function SumValues(v: seq<(string, real)>): real {
    if v == [] then 0.0 else SumValues(v[..|v| - 1]) + v[|v| - 1].1
  }

  lemma {:induction false} SumTfItems(d: seq<string>, s: seq<string>, total: nat)
    requires total > 0
    ensures SumValues(TfItems(d, s, total)) == SumCounts(d, s) as real / total as real
  {
    if d != [] {
      var e := d[..|d| - 1];
      var x := d[|d| - 1];
      var a := TfItems(e, s, total);
      var c := Count(s, x) as real;
      assert TfItems(d, s, total) == a + [(x, Ratio(Count(s, x), total))];
      assert (a + [(x, Ratio(Count(s, x), total))])[..|a|] == a;
      SumTfItems(e, s, total);
      DivideSum(SumCounts(e, s) as real, c, total as real);
    }
  }

  lemma DivideSum(a: real, b: real, n: real)
    requires n > 0.0
    ensures a / n + b / n == (a + b) / n
  {
  }

  /** The terms of the frequency vector are the distinct tokens, each once; no
      tokens give the empty vector. */
  lemma TermFrequencyKeys(tokens: seq<string>)
    ensures NoDuplicates(Keys(TermFrequency(tokens)))
    ensures forall t :: t in Keys(TermFrequency(tokens)) <==> t in tokens
    ensures tokens == [] <==> TermFrequency(tokens) == []
  {
    if tokens != [] {
      assert tokens[0] in Keys(TermFrequency(tokens));
    }
  }

  /** Every frequency lies in (0, 1] when there is at least one token. */
  lemma TermFrequencyInUnit(tokens: seq<string>)
    requires tokens != []
    ensures forall i :: 0 <= i < |TermFrequency(tokens)| ==> 0.0 < TermFrequency(tokens)[i].1 <= 1.0
  {
    var tf := TermFrequency(tokens);
    forall i | 0 <= i < |tf| ensures 0.0 < tf[i].1 <= 1.0 {
      assert tf[i].0 == Keys(tf)[i];
      TermFrequencyValue(tokens, i);
      CountPresent(tokens, tf[i].0);
      RatioInUnit(Count(tokens, tf[i].0) as real, |tokens| as real);
    }
  }

  lemma RatioInUnit(c: real, n: real)
    requires 0.0 < c <= n
    ensures 0.0 < c / n <= 1.0
  {
  }

  /** The frequencies add up to 1 when there is at least one token. */
  lemma TermFrequencySumsToOne(tokens: seq<string>)
    requires tokens != []
    ensures SumValues(TermFrequency(tokens)) == 1.0
  {
    var n := |tokens|;
    assert TermFrequency(tokens) == TfItems(Distinct(tokens), tokens, n);
    SumTfItems(Distinct(tokens), tokens, n);
    CountsAddUp(tokens);
    SelfRatio(n as real);
  }

  lemma SelfRatio(n: real)
    requires n > 0.0
    ensures n / n == 1.0
  {
  }

  // ---------------------------------------------------------------------------
  // _idf and _tfidf_vector
  // ---------------------------------------------------------------------------

  /** The number of documents that contain `t`. */
  function DocFreq(docs: seq<seq<string>>, t: string): nat {
    if docs == [] then 0
    else DocFreq(docs[..|docs| - 1], t) + (if t in docs[|docs| - 1] then 1 else 0)
  }

  /** Every term of some document. */
  function Vocabulary(docs: seq<seq<string>>): set<string> {
    if docs == [] then {}
    else Vocabulary(docs[..|docs| - 1]) + TermSet(docs[|docs| - 1])
  }

  /** `set(tokens)`. */
  function TermSet(tokens: seq<string>): (r: set<string>)
    ensures forall t :: t in r <==> t in tokens
  {
    set t | t in tokens
  }

  /** `log((N + 1) / (df + 1)) + 1` for `N` documents. */
  function IdfWeight(numDocs: nat, df: nat, log: real -> real): real {
    log((numDocs + 1) as real / (df + 1) as real) + 1.0
  }

  /** The weight of every term of the vocabulary. */
  function IdfMap(docs: seq<seq<string>>, log: real -> real): map<string, real> {
    map t | t in Vocabulary(docs) :: IdfWeight(|docs|, DocFreq(docs, t), log)
  }

  lemma DocsStep(docs: seq<seq<string>>, i: nat)
    requires i < |docs|
    ensures Vocabulary(docs[..i + 1]) == Vocabulary(docs[..i]) + TermSet(docs[i])
    ensures forall t :: DocFreq(docs[..i + 1], t) == DocFreq(docs[..i], t) + (if t in docs[i] then 1 else 0)
  {
    assert docs[..i + 1][..i] == docs[..i];
  }

  /** The inner loop of `_idf`: adds one to the count of each term of `unique`,
      starting absent terms at 0. */
  method CountOnce(df: map<string, nat>, unique: set<string>) returns (counted: map<string, nat>)
    ensures counted.Keys == df.Keys + unique
    ensures forall t :: t in counted ==>
              counted[t] == (if t in df then df[t] else 0) + (if t in unique then 1 else 0)
  {
    counted := df;
    var remaining := unique;
    while remaining != {}
      invariant remaining <= unique
      invariant counted.Keys == df.Keys + (unique - remaining)
      invariant forall t :: t in counted ==>
                  counted[t] == (if t in df then df[t] else 0) + (if t in unique - remaining then 1 else 0)
      decreases remaining
    {
      var term :| term in remaining;
      counted := counted[term := (if term in counted then counted[term] else 0) + 1];
      remaining := remaining - {term};
    }
  }

  /** src/rag.py `_idf`: counts, for each document, each of its distinct terms
      once, then weighs every counted term. */
  method Idf(documents: seq<seq<string>>, log: real -> real) returns (idf: map<string, real>)
    ensures idf == IdfMap(documents, log)
  {
    var df: map<string, nat> := map[];
    var i := 0;
    while i < |documents|
      invariant i <= |documents|
      invariant df.Keys == Vocabulary(documents[..i])
      invariant forall t :: t in df ==> df[t] == DocFreq(documents[..i], t)
    {
      df := CountOnce(df, TermSet(documents[i]));
      DocsStep(documents, i);
      forall t | t !in Vocabulary(documents[..i]) ensures DocFreq(documents[..i], t) == 0 {
        DocFreqBounds(documents[..i], t);
      }
      i := i + 1;
    }
    assert documents[..i] == documents;
    idf := WeighTerms(df, |documents|, log);
  }

  /** The last loop of `_idf`: the weight of every counted term. */
  method WeighTerms(df: map<string, nat>, numDocs: nat, log: real -> real) returns (idf: map<string, real>)
    ensures idf == map t | t in df :: IdfWeight(numDocs, df[t], log)
  {
    idf := map[];
    var todo := df.Keys;
    while todo != {}
      invariant todo <= df.Keys
      invariant idf.Keys == df.Keys - todo
      invariant forall t :: t in idf ==> idf[t] == IdfWeight(numDocs, df[t], log)
      decreases todo
    {
      var term :| term in todo;
      idf := idf[term := IdfWeight(numDocs, df[term], log)];
      todo := todo - {term};
    }
  }

  /** A term is in the vocabulary exactly when some document holds it, and then
      between 1 and N documents hold it. */
  lemma {:induction false} DocFreqBounds(docs: seq<seq<string>>, t: string)
    ensures DocFreq(docs, t) <= |docs|
    ensures t in Vocabulary(docs) <==> DocFreq(docs, t) >= 1
  {
    if docs != [] {
      DocFreqBounds(docs[..|docs| - 1], t);
    }
  }

  /** With a logarithm that is strictly increasing and zero at 1, every weight is
      at least 1, and a term held by fewer documents weighs more. */
  lemma IdfWeightOrder(numDocs: nat, df1: nat, df2: nat, log: real -> real)
    requires forall x, y :: 0.0 < x < y ==> log(x) < log(y)
    requires log(1.0) == 0.0
    requires df1 < df2 <= numDocs
    ensures IdfWeight(numDocs, df1, log) > IdfWeight(numDocs, df2, log) >= 1.0
  {
    var n := (numDocs + 1) as real;
    var a := n / (df1 + 1) as real;
    var b := n / (df2 + 1) as real;
    DivideLess(n, (df1 + 1) as real, (df2 + 1) as real);
    DivideAtLeastOne(n, (df2 + 1) as real);
    if b > 1.0 {
      assert log(1.0) < log(b);
    }
    assert log(b) < log(a);
  }

  lemma DivideLess(n: real, d1: real, d2: real)
    requires 0.0 < d1 < d2 && n > 0.0
    ensures n / d1 > n / d2 > 0.0
  {
  }

  lemma DivideAtLeastOne(n: real, d: real)
    requires 0.0 < d <= n
    ensures n / d >= 1.0
  {
  }

  /** `idf_scores.get(term, 1.0)`. */
  function WeightOf(idf: map<string, real>, t: string): real {
    if t in idf then idf[t] else 1.0
  }

  /** src/rag.py `_tfidf_vector`: each term frequency scaled by the term's
      weight, 1.0 for a term the index has never seen. */
  function TfidfVector(tokens: seq<string>, idf: map<string, real>): (r: Vector)
    ensures Keys(r) == Keys(TermFrequency(tokens))
  {
    Scaled(TermFrequency(tokens), idf)
  }

  /** A product of two weights. */
  function Times(x: real, y: real): real {
    x * y
  }

  /** Each weight of `v` multiplied by its term's weight in `idf`. */
  function Scaled(v: Vector, idf: map<string, real>): (r: Vector)
    ensures Keys(r) == Keys(v)
  {
    var r := seq(|v|, i requires 0 <= i < |v| => (v[i].0, Times(v[i].1, WeightOf(idf, v[i].0))));
    assert Keys(r) == Keys(v);
    r
  }

  /** The vector has one entry per distinct token, weighed by frequency times
      the weight, with weight 1.0 for a term outside the index. */
  lemma TfidfVectorEntries(tokens: seq<string>, idf: map<string, real>, t: string)
    requires t in tokens
    ensures t in Keys(TfidfVector(tokens, idf))
    ensures Lookup(TfidfVector(tokens, idf), t) == Times(Ratio(Count(tokens, t), |tokens|), WeightOf(idf, t))
  {
    var tf := TermFrequency(tokens);
    TermFrequencyKeys(tokens);
    var i :| 0 <= i < |tf| && Keys(tf)[i] == t;
    assert tf[i].0 == t;
    var v := TfidfVector(tokens, idf);
    assert v == Scaled(tf, idf);
    ScaledEntry(tf, idf, i);
    TermFrequencyValue(tokens, i);
  }

  lemma ScaledEntry(v: Vector, idf: map<string, real>, i: nat)
    requires i < |v|
    ensures v[i].0 in Keys(Scaled(v, idf))
    ensures Lookup(Scaled(v, idf), v[i].0) == Times(v[i].1, WeightOf(idf, v[i].0))
  {
    var r := Scaled(v, idf);
    assert Keys(r)[i] == v[i].0;
    LookupAt(r, i);
  }

  // ---------------------------------------------------------------------------
  // _cosine_similarity
  // ---------------------------------------------------------------------------

  /** The terms of `ka` that are also in `kb`, in the order of `ka`: the set
      `set(a) & set(b)` read in some order. */
  function CommonTerms(ka: seq<string>, kb: seq<string>): (r: seq<string>)
    ensures forall t :: t in r <==> t in ka && t in kb
    ensures NoDuplicates(ka) ==> NoDuplicates(r)
  {
    if ka == [] then []
    else
      var rest := CommonTerms(ka[1..], kb);
      assert NoDuplicates(ka) ==> ka[0] !in ka[1..];
      if ka[0] in kb then ConsDistinct(ka[0], rest); [ka[0]] + rest else rest
  }

  lemma ConsDistinct(x: string, rest: seq<string>)
    ensures NoDuplicates(rest) && x !in rest ==> NoDuplicates([x] + rest)
  {
    if NoDuplicates(rest) && x !in rest {
      forall i, j | 0 <= i < j < |[x] + rest| ensures ([x] + rest)[i] != ([x] + rest)[j] {
        if i > 0 {
          assert ([x] + rest)[i] == rest[i - 1];
        }
        assert ([x] + rest)[j] == rest[j - 1];
      }
    }
  }

  /** `sum(a[t] * b[t] for t in ts)`. */
  function DotOver(ts: seq<string>, a: seq<(string, real)>, b: seq<(string, real)>): real {
    if ts == [] then 0.0 else Times(Lookup(a, ts[0]), Lookup(b, ts[0])) + DotOver(ts[1..], a, b)
  }

  /** `sum(v ** 2 for v in vec.values())`. */
  function SumSquares(v: seq<(string, real)>): real {
    if v == [] then 0.0 else Times(v[0].1, v[0].1) + SumSquares(v[1..])
  }

  /** src/rag.py `_cosine_similarity`: 0.0 without a common term or with a
      vector of magnitude 0, otherwise the dot product over the common terms
      divided by the product of the magnitudes. */
  function Cosine(a: Vector, b: Vector, sqrt: real -> real): (r: real)
    ensures (forall t :: t in Keys(a) ==> t !in Keys(b)) ==> r == 0.0
    ensures sqrt(SumSquares(a)) == 0.0 || sqrt(SumSquares(b)) == 0.0 ==> r == 0.0
  {
    var common := CommonTerms(Keys(a), Keys(b));
    if common == [] then 0.0
    else
      var magA := sqrt(SumSquares(a));
      var magB := sqrt(SumSquares(b));
      assert common[0] in Keys(a) && common[0] in Keys(b);
      if magA == 0.0 || magB == 0.0 then 0.0
      else DotOver(common, a, b) / Times(magA, magB)
  }

  lemma {:induction false} DotOverSwap(ts: seq<string>, a: seq<(string, real)>, b: seq<(string, real)>)
    ensures DotOver(ts, a, b) == DotOver(ts, b, a)
  {
    if ts != [] {
      DotOverSwap(ts[1..], a, b);
    }
  }

  lemma {:induction false} DotOverAppend(p: seq<string>, q: seq<string>, a: seq<(string, real)>, b: seq<(string, real)>)
    ensures DotOver(p + q, a, b) == DotOver(p, a, b) + DotOver(q, a, b)
  {
    if p == [] {
      assert p + q == q;
    } else {
      assert (p + q)[0] == p[0] && (p + q)[1..] == p[1..] + q;
      DotOverAppend(p[1..], q, a, b);
    }
  }

  /** Removing the element at `k` from a list without duplicates. */
  lemma RemoveAt(ys: seq<string>, k: nat)
    requires NoDuplicates(ys) && k < |ys|
    ensures NoDuplicates(ys[..k] + ys[k + 1..])
    ensures forall t :: t in ys[..k] + ys[k + 1..] <==> t in ys && t != ys[k]
  {
    var rest := ys[..k] + ys[k + 1..];
    assert forall i :: 0 <= i < |rest| ==> rest[i] == (if i < k then ys[i] else ys[i + 1]);
    forall t ensures t in rest <==> t in ys && t != ys[k] {
      if t in ys && t != ys[k] {
        var i :| 0 <= i < |ys| && ys[i] == t;
        assert rest[if i < k then i else i - 1] == t;
      }
    }
  }

  /** The dot product does not depend on the order the common terms are read
      in. */
  lemma {:induction false} DotOverPermutation(xs: seq<string>, ys: seq<string>, a: seq<(string, real)>, b: seq<(string, real)>)
    requires NoDuplicates(xs) && NoDuplicates(ys)
    requires forall t :: t in xs <==> t in ys
    ensures DotOver(xs, a, b) == DotOver(ys, a, b)
    decreases |xs|
  {
    if xs == [] {
      assert forall i :: 0 <= i < |ys| ==> ys[i] in ys;
    } else {
      var x := xs[0];
      assert x in ys;
      var k :| 0 <= k < |ys| && ys[k] == x;
      var rest := ys[..k] + ys[k + 1..];
      RemoveAt(ys, k);
      assert ys == ys[..k] + ([x] + ys[k + 1..]);
      DotOverAppend(ys[..k], [x] + ys[k + 1..], a, b);
      assert ([x] + ys[k + 1..])[1..] == ys[k + 1..];
      DotOverAppend(ys[..k], ys[k + 1..], a, b);
      forall t ensures t in xs[1..] <==> t in rest {
        assert t in xs[1..] <==> t in xs && t != x;
      }
      DotOverPermutation(xs[1..], rest, a, b);
    }
  }

  /** Cosine similarity is symmetric. */
  lemma CosineSymmetric(a: Vector, b: Vector, sqrt: real -> real)
    ensures Cosine(a, b, sqrt) == Cosine(b, a, sqrt)
  {
    var ab := CommonTerms(Keys(a), Keys(b));
    var ba := CommonTerms(Keys(b), Keys(a));
    if ab != [] {
      assert ab[0] in ba;
      DotOverPermutation(ab, ba, a, b);
      DotOverSwap(ba, a, b);
    }
  }

  // ---------------------------------------------------------------------------
  // Ranking: RAGIndex.retrieve without its state
  // ---------------------------------------------------------------------------

  /** A snippet as the index sees it, once its file has been read. */
  datatype Snippet = Snippet(name: string, description: string, content: string, tags: seq<string>)

  /** `' '.join(words)`. */
  function JoinWords(ws: seq<string>): string {
    if ws == [] then [] else if |ws| == 1 then ws[0] else ws[0] + " " + JoinWords(ws[1..])
  }

  /** src/rag.py `URDFSnippet.searchable_text`: description, tags and name. */
  function SearchableText(s: Snippet): string {
    s.description + " " + JoinWords(s.tags) + " " + s.name
  }

  /** The `i`-th snippet and its similarity to the query. */
  datatype Hit = Hit(index: nat, snippet: Snippet, score: real)

  /** The order of `scored.sort(key=score, reverse=True)`: higher score first,
      and, the sort being stable, the earlier snippet first among equal scores. */
  predicate RanksBefore(x: Hit, y: Hit) {
    x.score > y.score || (x.score == y.score && x.index < y.index)
  }

  predicate Ranked(hs: seq<Hit>) {
    forall i, j :: 0 <= i < j < |hs| ==> RanksBefore(hs[i], hs[j])
  }

  /** Places `h` after every hit of `sorted` that scores at least as much. */
  function Insert(sorted: seq<Hit>, h: Hit): (r: seq<Hit>)
    ensures multiset(r) == multiset(sorted) + multiset{h}
  {
    if sorted == [] then [h]
    else
      var init := sorted[..|sorted| - 1];
      var last := sorted[|sorted| - 1];
      assert sorted == init + [last];
      if last.score >= h.score then sorted + [h] else Insert(init, h) + [last]
  }

  /** A stable sort by descending score. */
  function SortByScore(hs: seq<Hit>): (r: seq<Hit>)
    ensures multiset(r) == multiset(hs)
  {
    if hs == [] then []
    else
      var init := hs[..|hs| - 1];
      assert hs == init + [hs[|hs| - 1]];
      Insert(SortByScore(init), hs[|hs| - 1])
  }

  lemma {:induction false} InsertRanked(sorted: seq<Hit>, h: Hit)
    requires Ranked(sorted)
    requires forall i :: 0 <= i < |sorted| ==> sorted[i].index < h.index
    ensures Ranked(Insert(sorted, h))
  {
    if sorted != [] {
      var init := sorted[..|sorted| - 1];
      var last := sorted[|sorted| - 1];
      if last.score >= h.score {
        var r := sorted + [h];
        forall i, j | 0 <= i < j < |r| ensures RanksBefore(r[i], r[j]) {
          if j == |sorted| && i < |sorted| - 1 {
            assert RanksBefore(sorted[i], last);
          }
        }
      } else {
        InsertRanked(init, h);
        var m := Insert(init, h);
        var r := m + [last];
        forall i, j | 0 <= i < j < |r| ensures RanksBefore(r[i], r[j]) {
          if j == |m| {
            assert r[i] in multiset(m);
            assert r[i] in init || r[i] == h;
          }
        }
      }
    }
  }

  /** Sorting hits listed in snippet order gives them in ranking order. */
  lemma {:induction false} SortRanked(hs: seq<Hit>)
    requires forall i, j :: 0 <= i < j < |hs| ==> hs[i].index < hs[j].index
    ensures Ranked(SortByScore(hs))
  {
    if hs != [] {
      var init := hs[..|hs| - 1];
      var last := hs[|hs| - 1];
      SortRanked(init);
      var s := SortByScore(init);
      forall i | 0 <= i < |s| ensures s[i].index < last.index {
        assert s[i] in multiset(init);
      }
      InsertRanked(s, last);
    }
  }

  /** `[h for h in hs if h.score > 0.0]`. */
  function KeepPositive(hs: seq<Hit>): (r: seq<Hit>)
    ensures |r| <= |hs|
    ensures forall i :: 0 <= i < |r| ==> r[i].score > 0.0 && r[i] in hs
    ensures Ranked(hs) ==> Ranked(r)
  {
    if hs == [] then []
    else
      var rest := KeepPositive(hs[1..]);
      if hs[0].score > 0.0 then
        RankedCons(hs, rest);
        [hs[0]] + rest
      else
        assert Ranked(hs) ==> Ranked(hs[1..]);
        rest
  }

  /** The filter keeps exactly the positive hits, in their order: the hits
      kept sit at increasing positions of `hs`, and those positions are
      exactly the ones whose score is above 0. */
  lemma {:induction false} KeepPositivePositions(hs: seq<Hit>) returns (pos: seq<nat>)
    ensures |pos| == |KeepPositive(hs)|
    ensures forall i :: 0 <= i < |pos| ==> pos[i] < |hs| && KeepPositive(hs)[i] == hs[pos[i]]
    ensures forall i, j :: 0 <= i < j < |pos| ==> pos[i] < pos[j]
    ensures forall k :: 0 <= k < |hs| ==> (hs[k].score > 0.0 <==> k in pos)
    decreases |hs|
  {
    if hs == [] {
      pos := [];
    } else {
      var tail := KeepPositivePositions(hs[1..]);
      if hs[0].score > 0.0 {
        KeepPositiveKeeps(hs);
        PositionsKeep(hs, KeepPositive(hs[1..]), tail);
        pos := [0] + Shifted(tail);
      } else {
        KeepPositiveDrops(hs);
        PositionsDrop(hs, KeepPositive(hs[1..]), tail);
        pos := Shifted(tail);
      }
    }
  }

  /** `pos` lists, in increasing order, the positions of `hs` whose hit is
      positive, and `out` holds those hits. */
  ghost predicate PositionsOf(hs: seq<Hit>, out: seq<Hit>, pos: seq<nat>) {
    && |pos| == |out|
    && (forall i :: 0 <= i < |pos| ==> pos[i] < |hs| && out[i] == hs[pos[i]])
    && (forall i, j :: 0 <= i < j < |pos| ==> pos[i] < pos[j])
    && (forall k :: 0 <= k < |hs| ==> (hs[k].score > 0.0 <==> k in pos))
  }

  /** A hit that is dropped leaves the tail's positions, moved one place on. */
  lemma PositionsDrop(hs: seq<Hit>, kept: seq<Hit>, tail: seq<nat>)
    requires hs != [] && !(hs[0].score > 0.0) && PositionsOf(hs[1..], kept, tail)
    ensures PositionsOf(hs, kept, Shifted(tail))
  {
    ShiftedPositive(hs, tail);
    forall i | 0 <= i < |tail| ensures kept[i] == hs[tail[i] + 1] {
      assert kept[i] == hs[1..][tail[i]];
    }
  }

  /** A hit that is kept puts position 0 in front of the tail's positions. */
  lemma PositionsKeep(hs: seq<Hit>, kept: seq<Hit>, tail: seq<nat>)
    requires hs != [] && hs[0].score > 0.0 && PositionsOf(hs[1..], kept, tail)
    ensures PositionsOf(hs, [hs[0]] + kept, [0] + Shifted(tail))
  {
    ShiftedPositive(hs, tail);
    ConsZero(tail);
    var pos := [0] + Shifted(tail);
    var out := [hs[0]] + kept;
    forall i | 0 <= i < |pos| ensures pos[i] < |hs| && out[i] == hs[pos[i]] {
      if i > 0 {
        assert kept[i - 1] == hs[1..][tail[i - 1]];
      }
    }
    forall k | 0 <= k < |hs| ensures (hs[k].score > 0.0 <==> k in pos) {
      assert k in pos <==> k == 0 || k in Shifted(tail);
    }
  }

  /** The positive hits after the head sit at the tail's positions plus one. */
  lemma ShiftedPositive(hs: seq<Hit>, tail: seq<nat>)
    requires hs != [] && forall k :: 0 <= k < |hs| - 1 ==> (hs[1..][k].score > 0.0 <==> k in tail)
    ensures 0 !in Shifted(tail)
    ensures forall k :: 1 <= k < |hs| ==> (hs[k].score > 0.0 <==> k in Shifted(tail))
  {
    ShiftedIn(tail, 0);
    forall k | 1 <= k < |hs| ensures (hs[k].score > 0.0 <==> k in Shifted(tail)) {
      assert hs[k] == hs[1..][k - 1];
      ShiftedIn(tail, k);
    }
  }

  /** Every position moved one place on. */
  function Shifted(t: seq<nat>): (r: seq<nat>)
    ensures |r| == |t|
    ensures forall i :: 0 <= i < |t| ==> r[i] == t[i] + 1
  {
    seq(|t|, i requires 0 <= i < |t| => t[i] + 1)
  }

  lemma ConsZero(t: seq<nat>)
    requires forall i, j :: 0 <= i < j < |t| ==> t[i] < t[j]
    ensures |[0] + Shifted(t)| == |t| + 1
    ensures forall i :: 1 <= i < |t| + 1 ==> ([0] + Shifted(t))[i] == t[i - 1] + 1
    ensures forall i, j :: 0 <= i < j < |t| + 1 ==> ([0] + Shifted(t))[i] < ([0] + Shifted(t))[j]
  {
    var r := [0] + Shifted(t);
    forall i, j | 0 <= i < j < |r| ensures r[i] < r[j] {
      if i > 0 {
        assert r[i] == t[i - 1] + 1 && r[j] == t[j - 1] + 1;
      }
    }
  }

  lemma ShiftedIn(t: seq<nat>, k: nat)
    ensures k in Shifted(t) <==> (k >= 1 && k - 1 in t)
  {
    if k >= 1 && k - 1 in t {
      var i :| 0 <= i < |t| && t[i] == k - 1;
      assert Shifted(t)[i] == k;
    }
  }

  lemma KeepPositiveKeeps(hs: seq<Hit>)
    requires hs != [] && hs[0].score > 0.0
    ensures KeepPositive(hs) == [hs[0]] + KeepPositive(hs[1..])
  {
  }

  lemma KeepPositiveDrops(hs: seq<Hit>)
    requires hs != [] && !(hs[0].score > 0.0)
    ensures KeepPositive(hs) == KeepPositive(hs[1..])
  {
  }

  lemma RankedCons(hs: seq<Hit>, rest: seq<Hit>)
    requires hs != [] && forall i :: 0 <= i < |rest| ==> rest[i] in hs[1..]
    requires Ranked(hs[1..]) ==> Ranked(rest)
    ensures Ranked(hs) ==> Ranked([hs[0]] + rest)
  {
    if Ranked(hs) {
      assert Ranked(hs[1..]);
      var r := [hs[0]] + rest;
      forall i, j | 0 <= i < j < |r| ensures RanksBefore(r[i], r[j]) {
        assert r[j] == rest[j - 1];
        if i == 0 {
          var k :| 0 <= k < |hs[1..]| && hs[1..][k] == rest[j - 1];
          assert RanksBefore(hs[0], hs[k + 1]);
        } else {
          assert r[i] == rest[i - 1];
        }
      }
    }
  }

  /** `scored[:top_k]`, with Python's reading of a negative bound. */
  function TakeFirst(hs: seq<Hit>, topK: int): (r: seq<Hit>)
    ensures topK >= 0 ==> |r| == if topK < |hs| then topK else |hs|
    ensures topK < 0 ==> |r| == if |hs| + topK > 0 then |hs| + topK else 0
    ensures |r| <= |hs| && r == hs[..|r|]
  {
    if topK >= 0 then hs[..if topK < |hs| then topK else |hs|]
    else hs[..if |hs| + topK > 0 then |hs| + topK else 0]
  }

  /** One hit per snippet, in snippet order. */
  function ScoredHits(snippets: seq<Snippet>, docVectors: seq<Vector>, query: Vector, sqrt: real -> real): (r: seq<Hit>)
    requires |docVectors| == |snippets|
    ensures |r| == |snippets|
    ensures forall i :: 0 <= i < |r| ==> r[i] == Hit(i, snippets[i], Cosine(query, docVectors[i], sqrt))
  {
    seq(|snippets|, i requires 0 <= i < |snippets| => Hit(i, snippets[i], Cosine(query, docVectors[i], sqrt)))
  }

  function Pairs(hs: seq<Hit>): (r: seq<(Snippet, real)>)
    ensures |r| == |hs| && forall i :: 0 <= i < |hs| ==> r[i] == (hs[i].snippet, hs[i].score)
  {
    seq(|hs|, i requires 0 <= i < |hs| => (hs[i].snippet, hs[i].score))
  }

  /** What `retrieve` returns for a query vector once the index is loaded: the
      first `top_k` snippets by descending similarity, keeping those that score
      above 0. */
  function Ranking(snippets: seq<Snippet>, docVectors: seq<Vector>, query: Vector, topK: int, sqrt: real -> real): seq<(Snippet, real)>
    requires |docVectors| == |snippets|
  {
    if snippets == [] then []
    else Pairs(KeepPositive(TakeFirst(SortByScore(ScoredHits(snippets, docVectors, query, sqrt)), topK)))
  }

  /** The ranking holds at most `top_k` snippets, each with its own similarity,
      every similarity above 0, best first. */
  lemma RankingProperties(snippets: seq<Snippet>, docVectors: seq<Vector>, query: Vector, topK: int, sqrt: real -> real)
    requires |docVectors| == |snippets|
    ensures var r := Ranking(snippets, docVectors, query, topK, sqrt);
      && (topK >= 0 ==> |r| <= topK)
      && (forall i :: 0 <= i < |r| ==> r[i].1 > 0.0)
      && (forall i, j :: 0 <= i < j < |r| ==> r[i].1 >= r[j].1)
      && (forall i :: 0 <= i < |r| ==> exists k :: 0 <= k < |snippets| && r[i] == (snippets[k], Cosine(query, docVectors[k], sqrt)))
  {
    if snippets != [] {
      var hits := ScoredHits(snippets, docVectors, query, sqrt);
      SortRanked(hits);
      var sorted := SortByScore(hits);
      IndexedAfterSort(hits, sorted);
      var top := TakeFirst(sorted, topK);
      assert Ranked(top);
      var kept := KeepPositive(top);
      var r := Pairs(kept);
      forall i | 0 <= i < |r| ensures exists k :: 0 <= k < |snippets| && r[i] == (snippets[k], Cosine(query, docVectors[k], sqrt)) {
        var j :| 0 <= j < |top| && top[j] == kept[i];
        assert kept[i] == hits[sorted[j].index];
      }
      forall i, j | 0 <= i < j < |r| ensures r[i].1 >= r[j].1 {
        assert RanksBefore(kept[i], kept[j]);
      }
    }
  }

  /** When some snippet scores above 0 and at least one is asked for, the
      ranking is not empty and starts with a best-scoring snippet. */
  lemma RankingBest(snippets: seq<Snippet>, docVectors: seq<Vector>, query: Vector, topK: int, sqrt: real -> real, k: nat)
    requires |docVectors| == |snippets|
    requires topK > 0 && k < |snippets| && Cosine(query, docVectors[k], sqrt) > 0.0
    ensures var r := Ranking(snippets, docVectors, query, topK, sqrt);
      r != [] && forall j :: 0 <= j < |snippets| ==> r[0].1 >= Cosine(query, docVectors[j], sqrt)
  {
    var hits := ScoredHits(snippets, docVectors, query, sqrt);
    SortRanked(hits);
    var sorted := SortByScore(hits);
    IndexedAfterSort(hits, sorted);
    forall j | 0 <= j < |snippets| ensures sorted[0].score >= hits[j].score {
      assert hits[j] in multiset(sorted);
      var m :| 0 <= m < |sorted| && sorted[m] == hits[j];
      if m > 0 {
        assert RanksBefore(sorted[0], sorted[m]);
      }
    }
    var top := TakeFirst(sorted, topK);
    assert top[0] == sorted[0];
    assert sorted[0].score >= hits[k].score > 0.0;
    assert KeepPositive(top)[0] == top[0];
  }

  /** The top-k half of `retrieve`'s promise: a snippet that scores above 0
      but is not returned is outranked by `top_k` other snippets, each scoring
      at least as much. */
  lemma RankingComplete(snippets: seq<Snippet>, docVectors: seq<Vector>, query: Vector, topK: int, sqrt: real -> real, k: nat)
    returns (better: seq<nat>)
    requires |docVectors| == |snippets| && topK >= 0
    requires k < |snippets| && Cosine(query, docVectors[k], sqrt) > 0.0
    requires (snippets[k], Cosine(query, docVectors[k], sqrt)) !in Ranking(snippets, docVectors, query, topK, sqrt)
    ensures |better| == topK
    ensures forall i, j :: 0 <= i < j < |better| ==> better[i] != better[j]
    ensures forall i :: 0 <= i < |better| ==>
              better[i] < |snippets| && better[i] != k && Cosine(query, docVectors[better[i]], sqrt) >= Cosine(query, docVectors[k], sqrt)
  {
    var hits := ScoredHits(snippets, docVectors, query, sqrt);
    SortRanked(hits);
    var sorted := SortByScore(hits);
    IndexedAfterSort(hits, sorted);
    assert hits[k] in multiset(sorted);
    var p :| 0 <= p < |sorted| && sorted[p] == hits[k];
    ReturnedIfInTop(snippets, docVectors, query, topK, sqrt, sorted, p);
    better := Outranking(hits, sorted, p, topK);
    forall i | 0 <= i < |better|
      ensures Cosine(query, docVectors[better[i]], sqrt) >= Cosine(query, docVectors[k], sqrt)
    {
      assert hits[better[i]].score >= hits[k].score;
    }
  }

  /** Sorting hits that carry their own position keeps each one findable by
      its index. */
  lemma IndexedAfterSort(hits: seq<Hit>, sorted: seq<Hit>)
    requires forall t :: 0 <= t < |hits| ==> hits[t].index == t
    requires multiset(sorted) == multiset(hits)
    ensures |sorted| == |hits|
    ensures forall i :: 0 <= i < |sorted| ==> sorted[i].index < |hits| && sorted[i] == hits[sorted[i].index]
  {
    assert |multiset(sorted)| == |multiset(hits)|;
    forall i | 0 <= i < |sorted| ensures sorted[i].index < |hits| && sorted[i] == hits[sorted[i].index] {
      assert sorted[i] in multiset(hits);
    }
  }

  /** The first `n` hits of a ranked list, all ahead of position `p`, are `n`
      distinct hits other than `sorted[p]` scoring at least as much. */
  lemma Outranking(hits: seq<Hit>, sorted: seq<Hit>, p: nat, n: nat) returns (better: seq<nat>)
    requires Ranked(sorted) && n <= p < |sorted|
    requires forall i :: 0 <= i < |sorted| ==> sorted[i].index < |hits| && sorted[i] == hits[sorted[i].index]
    ensures |better| == n
    ensures forall i, j :: 0 <= i < j < |better| ==> better[i] != better[j]
    ensures forall i :: 0 <= i < |better| ==>
              better[i] < |hits| && better[i] != sorted[p].index && hits[better[i]].score >= sorted[p].score
  {
    better := seq(n, i requires 0 <= i < n => sorted[i].index);
    forall i, j | 0 <= i < j < |better| ensures better[i] != better[j] {
      assert RanksBefore(sorted[i], sorted[j]);
    }
    forall i | 0 <= i < |better| ensures better[i] != sorted[p].index && hits[better[i]].score >= sorted[p].score {
      assert RanksBefore(sorted[i], sorted[p]);
    }
  }

  /** A positive hit among the first `top_k` of the sorted hits is returned. */
  lemma ReturnedIfInTop(snippets: seq<Snippet>, docVectors: seq<Vector>, query: Vector, topK: int, sqrt: real -> real, sorted: seq<Hit>, p: nat)
    requires |docVectors| == |snippets| && topK >= 0
    requires sorted == SortByScore(ScoredHits(snippets, docVectors, query, sqrt))
    requires p < |sorted| && sorted[p].score > 0.0
    ensures p < topK ==> (sorted[p].snippet, sorted[p].score) in Ranking(snippets, docVectors, query, topK, sqrt)
  {
    if p < topK {
      assert snippets != [] by {
        assert |multiset(sorted)| == |multiset(ScoredHits(snippets, docVectors, query, sqrt))|;
      }
      var top := TakeFirst(sorted, topK);
      assert top[p] == sorted[p];
      var pos := KeepPositivePositions(top);
      var i :| 0 <= i < |pos| && pos[i] == p;
      var kept := KeepPositive(top);
      assert kept[i] == sorted[p];
      assert Pairs(kept)[i] == (sorted[p].snippet, sorted[p].score);
    }
  }

  // ---------------------------------------------------------------------------
  // The context handed to the model: RAGIndex.build_context without its state
  // ---------------------------------------------------------------------------

  const ContextIntro := "Here are reference URDF examples for similar robots:\n"
  const ContextOutro := "Use these examples as reference for correct URDF syntax, joint structure, and physical properties. Adapt them to match the user's specific request.\n"
  const TruncationMarker := "\n<!-- ... truncated ... -->"

  /** How many characters of a snippet the context shows. */
  const TrimLimit := 2000

  /** A snippet's content cut to its first 2000 characters, marked when
      something was cut. */
  function Trimmed(content: string): (r: string)
    ensures |content| <= TrimLimit ==> r == content
    ensures |content| > TrimLimit ==>
              (|r| == TrimLimit + |TruncationMarker| && r[..TrimLimit] == content[..TrimLimit]
               && r[TrimLimit..] == TruncationMarker)
  {
    var shown := content[..if |content| < TrimLimit then |content| else TrimLimit];
    if |content| > TrimLimit then shown + TruncationMarker else shown
  }

  /** `f"--- Example: {description} (relevance: {score:.2f}) ---"`. */
  function ExampleHeader(description: string, score: real): Text {
    [Lit("--- Example: "), Lit(description), Lit(" (relevance: "), Fixed(score, 2), Lit(") ---")]
  }

  /** The three parts each retrieved snippet adds: header, trimmed content and
      an empty line. */
  function ExampleParts(results: seq<(Snippet, real)>): (r: seq<Text>)
    ensures |r| == 3 * |results|
  {
    if results == [] then []
    else
      var last := results[|results| - 1];
      ExampleParts(results[..|results| - 1])
        + [ExampleHeader(last.0.description, last.1), Str(Trimmed(last.0.content)), Str("")]
  }

  /** `"\n".join(parts)`. */
  function JoinLines(parts: seq<Text>): Text {
    if parts == [] then []
    else if |parts| == 1 then parts[0]
    else JoinLines(parts[..|parts| - 1]) + [Lit("\n")] + parts[|parts| - 1]
  }

  /** The whole context for the retrieved snippets; "" when there are none. */
  function ContextText(results: seq<(Snippet, real)>): Text {
    if results == [] then [] else JoinLines(ContextParts(results))
  }

  /** `context_parts` once every retrieved snippet has been added. */
  function ContextParts(results: seq<(Snippet, real)>): seq<Text> {
    [Str(ContextIntro)] + ExampleParts(results) + [Str(ContextOutro)]
  }

  /** The numbers of the parts, part after part. */
  function PartNumbers(parts: seq<Text>): seq<real> {
    if parts == [] then [] else PartNumbers(parts[..|parts| - 1]) + Numbers(parts[|parts| - 1])
  }

  lemma {:induction false} PartNumbersAppend(p: seq<Text>, q: seq<Text>)
    ensures PartNumbers(p + q) == PartNumbers(p) + PartNumbers(q)
    decreases |q|
  {
    if q == [] {
      assert p + q == p;
    } else {
      assert (p + q)[..|p + q| - 1] == p + q[..|q| - 1];
      PartNumbersAppend(p, q[..|q| - 1]);
    }
  }

  lemma {:induction false} JoinLinesNumbers(parts: seq<Text>)
    ensures Numbers(JoinLines(parts)) == PartNumbers(parts)
  {
    if |parts| == 1 {
      assert parts[..0] == [];
    } else if |parts| > 1 {
      var init := parts[..|parts| - 1];
      JoinLinesNumbers(init);
      NumbersAppend(JoinLines(init), [Lit("\n")]);
      NumbersAppend(JoinLines(init) + [Lit("\n")], parts[|parts| - 1]);
      LiteralsHaveNoNumbers([Lit("\n")]);
    }
  }

  lemma HeaderNumbers(description: string, score: real)
    ensures Numbers(ExampleHeader(description, score)) == [score]
  {
    var h := ExampleHeader(description, score);
    assert h == [Lit("--- Example: "), Lit(description), Lit(" (relevance: ")] + [Fixed(score, 2), Lit(") ---")];
    LiteralsHaveNoNumbers([Lit("--- Example: "), Lit(description), Lit(" (relevance: ")]);
    NumbersAppend([Lit("--- Example: "), Lit(description), Lit(" (relevance: ")], [Fixed(score, 2), Lit(") ---")]);
    assert [Fixed(score, 2), Lit(") ---")][1..] == [Lit(") ---")];
  }

  function Scores(results: seq<(Snippet, real)>): (r: seq<real>)
    ensures |r| == |results| && forall i :: 0 <= i < |results| ==> r[i] == results[i].1
  {
    seq(|results|, i requires 0 <= i < |results| => results[i].1)
  }

  lemma {:induction false} ExampleNumbers(results: seq<(Snippet, real)>)
    ensures PartNumbers(ExampleParts(results)) == Scores(results)
  {
    if results != [] {
      var init := results[..|results| - 1];
      var last := results[|results| - 1];
      ExampleNumbers(init);
      var three := [ExampleHeader(last.0.description, last.1), Str(Trimmed(last.0.content)), Str("")];
      PartNumbersAppend(ExampleParts(init), three);
      ThreePartNumbers(ExampleHeader(last.0.description, last.1), Trimmed(last.0.content), "");
      HeaderNumbers(last.0.description, last.1);
      assert Scores(results) == Scores(init) + [last.1];
    }
  }

  lemma ThreePartNumbers(h: Text, a: string, b: string)
    ensures PartNumbers([h, Str(a), Str(b)]) == Numbers(h)
  {
    var three := [h, Str(a), Str(b)];
    assert three[..|three| - 1] == [h, Str(a)];
    assert [h, Str(a)][..1] == [h];
    assert [h][..0] == [];
    LiteralsHaveNoNumbers(Str(a));
    LiteralsHaveNoNumbers(Str(b));
    assert PartNumbers([h]) == Numbers(h);
    assert PartNumbers([h, Str(a)]) == Numbers(h);
  }

  /** The context mentions exactly the relevance of each retrieved snippet,
      in ranking order, and is empty exactly when nothing was retrieved. */
  lemma ContextScores(results: seq<(Snippet, real)>)
    ensures Numbers(ContextText(results)) == Scores(results)
    ensures ContextText(results) == [] <==> results == []
  {
    if results != [] {
      var parts := ContextParts(results);
      JoinLinesNumbers(parts);
      PartNumbersAppend([Str(ContextIntro)] + ExampleParts(results), [Str(ContextOutro)]);
      PartNumbersAppend([Str(ContextIntro)], ExampleParts(results));
      ExampleNumbers(results);
      assert [Str(ContextIntro)][..0] == [];
      assert [Str(ContextOutro)][..0] == [];
      JoinLinesEndsWith(parts);
    }
  }

  lemma JoinLinesEndsWith(parts: seq<Text>)
    requires parts != []
    ensures |JoinLines(parts)| >= |parts[|parts| - 1]|
  {
  }

  /** Every piece of every part shows up in the joined text. */
  lemma {:induction false} JoinLinesKeeps(parts: seq<Text>, k: nat, p: Piece)
    requires k < |parts| && p in parts[k]
    ensures p in JoinLines(parts)
  {
    if |parts| > 1 && k < |parts| - 1 {
      JoinLinesKeeps(parts[..|parts| - 1], k, p);
    }
  }

  lemma {:induction false} ExamplePartsShow(results: seq<(Snippet, real)>, i: nat)
    requires i < |results|
    ensures ExampleParts(results)[3 * i] == ExampleHeader(results[i].0.description, results[i].1)
    ensures ExampleParts(results)[3 * i + 1] == Str(Trimmed(results[i].0.content))
  {
    var init := results[..|results| - 1];
    if i < |results| - 1 {
      ExamplePartsShow(init, i);
    }
  }

  /** Each retrieved snippet shows in the context with its description and
      its content cut to 2000 characters. */
  lemma ContextShowsEachSnippet(results: seq<(Snippet, real)>, i: nat)
    requires i < |results|
    ensures Lit(results[i].0.description) in ContextText(results)
    ensures Lit(Trimmed(results[i].0.content)) in ContextText(results)
  {
    var parts := ContextParts(results);
    ContextPartsShow(results, i);
    JoinLinesKeeps(parts, 3 * i + 1, Lit(results[i].0.description));
    JoinLinesKeeps(parts, 3 * i + 2, Lit(Trimmed(results[i].0.content)));
  }

  /** The example parts sit between the opening and closing lines. */
  lemma ContextPartsMiddle(results: seq<(Snippet, real)>, k: nat)
    requires k < |ExampleParts(results)|
    ensures k + 1 < |ContextParts(results)|
    ensures ContextParts(results)[k + 1] == ExampleParts(results)[k]
  {
    var ep := ExampleParts(results);
    var parts := [Str(ContextIntro)] + ep + [Str(ContextOutro)];
    assert parts[k + 1] == ep[k];
  }

  lemma ContextPartsShow(results: seq<(Snippet, real)>, i: nat)
    requires i < |results|
    ensures 3 * i + 2 < |ContextParts(results)|
    ensures Lit(results[i].0.description) in ContextParts(results)[3 * i + 1]
    ensures Lit(Trimmed(results[i].0.content)) in ContextParts(results)[3 * i + 2]
  {
    var d := results[i].0.description;
    var t := Trimmed(results[i].0.content);
    ExamplePartsShow(results, i);
    ContextPartsMiddle(results, 3 * i);
    ContextPartsMiddle(results, 3 * i + 1);
    assert ExampleHeader(d, results[i].1)[1] == Lit(d);
    assert Str(t)[0] == Lit(t);
  }

  // ---------------------------------------------------------------------------
  // RAGIndex
  // ---------------------------------------------------------------------------

  /** src/rag.py `RAGIndex`: an in-memory TF-IDF index that loads itself the
      first time it is asked for snippets. `directory` stands for the snippets
      directory: `None` when it does not exist, otherwise its `*.urdf` snippets
      in sorted path order. */
  class RagIndex {
    const directory: Option<seq<Snippet>>
    const log: real -> real
    const sqrt: real -> real
    var snippets: seq<Snippet>
    var docTokens: seq<seq<string>>
    var idf: map<string, real>
    var docVectors: seq<Vector>
    var loaded: bool

    /** The tokens, weights and vectors are those of the snippets. */
    ghost predicate Valid()
      reads this
    {
      && |docTokens| == |snippets| && |docVectors| == |snippets|
      && (forall i :: 0 <= i < |snippets| ==> docTokens[i] == Tokenize(SearchableText(snippets[i])))
      && idf == IdfMap(docTokens, log)
      && (forall i :: 0 <= i < |snippets| ==> docVectors[i] == TfidfVector(docTokens[i], idf))
    }

    constructor(directory: Option<seq<Snippet>>, log: real -> real, sqrt: real -> real)
      ensures this.directory == directory && this.log == log && this.sqrt == sqrt
      ensures snippets == [] && docTokens == [] && idf == map[] && docVectors == [] && !loaded
      ensures Valid()
    {
      this.directory := directory;
      this.log := log;
      this.sqrt := sqrt;
      snippets := [];
      docTokens := [];
      idf := map[];
      docVectors := [];
      loaded := false;
      assert IdfMap([], log) == map[];
    }

    /** src/rag.py `RAGIndex.load`: a missing directory only marks the index
        loaded; otherwise every snippet is tokenized and weighed. */
    method Load()
      requires Valid()
      modifies this
      ensures Valid() && loaded
      ensures directory.None? ==>
                snippets == old(snippets) && docTokens == old(docTokens)
                && idf == old(idf) && docVectors == old(docVectors)
      ensures directory.Some? ==> snippets == directory.value
    {
      if directory.None? {
        loaded := true;
        return;
      }
      var files := directory.value;
      var tokens := seq(|files|, i requires 0 <= i < |files| => Tokenize(SearchableText(files[i])));
      var weights := Idf(tokens, log);
      var vectors := seq(|tokens|, i requires 0 <= i < |tokens| => TfidfVector(tokens[i], weights));
      snippets := files;
      docTokens := tokens;
      idf := weights;
      docVectors := vectors;
      loaded := true;
    }

    /** src/rag.py `RAGIndex.retrieve`: loads the index if it was never loaded,
        then ranks the snippets against the query. */
    method Retrieve(query: string, topK: int) returns (results: seq<(Snippet, real)>)
      requires Valid()
      modifies this
      ensures Valid() && loaded
      ensures old(loaded) ==> unchanged(this)
      ensures !old(loaded) && directory.Some? ==> snippets == directory.value
      ensures !old(loaded) && directory.None? ==> snippets == old(snippets)
      ensures results == Ranking(snippets, docVectors, TfidfVector(Tokenize(query), idf), topK, sqrt)
    {
      if !loaded {
        Load();
      }
      if |snippets| == 0 {
        return [];
      }
      var queryVec := TfidfVector(Tokenize(query), idf);
      var scored := ScoreAll(snippets, docVectors, queryVec, sqrt);
      var ranked := SortByScore(scored);
      results := Pairs(KeepPositive(TakeFirst(ranked, topK)));
    }

    /** src/rag.py `RAGIndex.build_context`: "" when nothing is retrieved,
        otherwise the introduction, each snippet's header, trimmed content and
        an empty line, and the closing advice, joined by newlines. */
    method BuildContext(query: string, topK: int) returns (context: Text)
      requires Valid()
      modifies this
      ensures Valid() && loaded
      ensures old(loaded) ==> unchanged(this)
      ensures context == ContextText(Ranking(snippets, docVectors, TfidfVector(Tokenize(query), idf), topK, sqrt))
    {
      var results := Retrieve(query, topK);
      context := AssembleContext(results);
    }
  }

  /** The scoring loop of `retrieve`: one hit per document vector, in order. */
  method ScoreAll(snippets: seq<Snippet>, docVectors: seq<Vector>, queryVec: Vector, sqrt: real -> real)
    returns (scored: seq<Hit>)
    requires |docVectors| == |snippets|
    ensures scored == ScoredHits(snippets, docVectors, queryVec, sqrt)
  {
    scored := [];
    var i := 0;
    while i < |docVectors|
      invariant i <= |docVectors|
      invariant scored == ScoredHits(snippets, docVectors, queryVec, sqrt)[..i]
    {
      var sim := Cosine(queryVec, docVectors[i], sqrt);
      scored := scored + [Hit(i, snippets[i], sim)];
      i := i + 1;
    }
  }

  /** The body of `build_context` after retrieval: "" for no results,
      otherwise the parts built one snippet at a time and joined by newlines. */
  method AssembleContext(results: seq<(Snippet, real)>) returns (context: Text)
    ensures context == ContextText(results)
  {
    if results == [] {
      return [];
    }
    var parts: seq<Text> := [Str(ContextIntro)];
    var i := 0;
    while i < |results|
      invariant i <= |results|
      invariant parts == [Str(ContextIntro)] + ExampleParts(results[..i])
    {
      var snippet := results[i].0;
      var score := results[i].1;
      parts := parts + [ExampleHeader(snippet.description, score)];
      var trimmed := snippet.content[..if |snippet.content| < TrimLimit then |snippet.content| else TrimLimit];
      if |snippet.content| > TrimLimit {
        trimmed := trimmed + TruncationMarker;
      }
      parts := parts + [Str(trimmed)];
      parts := parts + [Str("")];
      assert results[..i + 1][..i] == results[..i];
      i := i + 1;
    }
    assert results[..i] == results;
    parts := parts + [Str(ContextOutro)];
    context := JoinLines(parts);
  }
}
