/** String operations of Python's `str` that the converters, validators and
    retrieval code rely on: lower-casing, `strip`, `split()`, substring search
    (case-sensitive and case-insensitive) and `str(int)`. */
module Strings {
  import opened Wrappers

  /** Python's `str.isspace()`: the characters `strip()`, `split()` and the
      regular-expression class `\s` treat as whitespace. */
  predicate IsSpace(c: char) {
    c == ' ' || ('\t' <= c <= '\r') || ('\U{1C}' <= c <= '\U{1F}') || c == '\U{85}' || c == '\U{A0}'
    || c == '\U{1680}' || ('\U{2000}' <= c <= '\U{200A}') || c == '\U{2028}' || c == '\U{2029}'
    || c == '\U{202F}' || c == '\U{205F}' || c == '\U{3000}'
  }

  /** `c.lower()` for ASCII letters; every other character is unchanged. */
  function LowerChar(c: char): (r: char)
    ensures 'A' <= c <= 'Z' ==> r as int == c as int + 32
    ensures !('A' <= c <= 'Z') ==> r == c
    ensures !('A' <= r <= 'Z')
  {
    if 'A' <= c <= 'Z' then (c as int + 32) as char else c
  }

  function Lower(s: string): (r: string)
    ensures |r| == |s|
    ensures forall i :: 0 <= i < |s| ==> r[i] == LowerChar(s[i])
  {
    seq(|s|, i requires 0 <= i < |s| => LowerChar(s[i]))
  }

  lemma LowerIdempotent(s: string)
    ensures Lower(Lower(s)) == Lower(s)
  {
  }

  lemma LowerAppend(a: string, b: string)
    ensures Lower(a + b) == Lower(a) + Lower(b)
  {
    assert Lower(a + b) == Lower(a) + Lower(b);
  }

  // ---------------------------------------------------------------------------
  // Substring search
  // ---------------------------------------------------------------------------

  /** Two characters match; with `ci` both are lower-cased first (the
      `re.IGNORECASE` comparison for ASCII patterns). */
  predicate CharMatch(a: char, b: char, ci: bool) {
    if ci then LowerChar(a) == LowerChar(b) else a == b
  }

  /** `p` occurs in `s` at index `i`. */
  predicate OccursAt(s: string, i: int, p: string, ci: bool) {
    0 <= i && i + |p| <= |s| && forall j :: 0 <= j < |p| ==> CharMatch(s[i + j], p[j], ci)
  }

  /** Case-sensitively, an occurrence is an equal slice. */
  lemma OccursAtIffSlice(s: string, i: int, p: string)
    requires 0 <= i && i + |p| <= |s|
    ensures OccursAt(s, i, p, false) <==> s[i..i + |p|] == p
  {
    var w := s[i..i + |p|];
    assert forall j :: 0 <= j < |p| ==> w[j] == s[i + j];
  }

  /** Case-insensitively, an occurrence is a slice equal after lower-casing. */
  lemma OccursAtIffLowerSlice(s: string, i: int, p: string)
    requires 0 <= i && i + |p| <= |s|
    ensures OccursAt(s, i, p, true) <==> Lower(s[i..i + |p|]) == Lower(p)
  {
    var w := s[i..i + |p|];
    assert forall j :: 0 <= j < |p| ==> w[j] == s[i + j];
    if Lower(w) == Lower(p) {
      assert forall j :: 0 <= j < |p| ==> Lower(w)[j] == Lower(p)[j];
    }
  }

  /** The first index at or after `from` where `p` occurs (`s.find(p, from)`). */
  function Find(s: string, p: string, from: nat, ci: bool): (r: Option<nat>)
    ensures r.Some? ==> from <= r.value && OccursAt(s, r.value, p, ci)
    ensures r.Some? ==> forall k :: from <= k < r.value ==> !OccursAt(s, k, p, ci)
    ensures r.None? ==> forall k :: from <= k ==> !OccursAt(s, k, p, ci)
    decreases |s| - from
  {
    if from + |p| > |s| then None
    else if OccursAt(s, from, p, ci) then Some(from)
    else Find(s, p, from + 1, ci)
  }

  /** The search returns exactly the first occurrence at or after `from`. */
  lemma FindIsFirst(s: string, p: string, from: nat, q: nat, ci: bool)
    requires from <= q && OccursAt(s, q, p, ci)
    requires forall k :: from <= k < q ==> !OccursAt(s, k, p, ci)
    ensures Find(s, p, from, ci) == Some(q)
  {
  }

  /** Python's `p in s`, evaluated as a search from the start. */
  predicate Contains(s: string, p: string) {
    Find(s, p, 0, false).Some?
  }

  /** `p in s` holds exactly when `p` occurs somewhere in `s`. */
  lemma ContainsIffOccurs(s: string, p: string)
    ensures Contains(s, p) <==> exists i :: OccursAt(s, i, p, false)
  {
    if Contains(s, p) {
      assert OccursAt(s, Find(s, p, 0, false).value, p, false);
    }
  }

  /** A slice of a slice is a slice of the original string. */
  lemma SliceOfSlice(s: string, lo: int, hi: int, i: int, n: nat)
    requires 0 <= lo <= hi <= |s|
    requires 0 <= i && lo + i + n <= hi
    ensures s[lo..hi][i..i + n] == s[lo + i..lo + i + n]
  {
    var u := s[lo..hi];
    var a := u[i..i + n];
    var b := s[lo + i..lo + i + n];
    forall k | 0 <= k < n ensures a[k] == b[k] {
      assert a[k] == u[i + k];
    }
  }

  /** An occurrence inside `s[lo..hi]` is an occurrence in `s`, shifted by `lo`. */
  lemma OccursInSlice(s: string, lo: int, hi: int, i: int, p: string, ci: bool)
    requires 0 <= lo <= hi <= |s|
    ensures OccursAt(s[lo..hi], i, p, ci) <==> (0 <= i && lo + i + |p| <= hi && OccursAt(s, lo + i, p, ci))
  {
    var t := s[lo..hi];
    assert forall k :: 0 <= k < |t| ==> t[k] == s[lo + k];
  }

  /** A pattern with a character the text lacks is not in the text. */
  lemma NotContained(s: string, p: string, j: nat)
    requires j < |p| && p[j] !in s
    ensures !Contains(s, p)
  {
    forall k | 0 <= k && k + |p| <= |s| ensures !OccursAt(s, k, p, false) {
      assert s[k + j] in s;
    }
    ContainsIffOccurs(s, p);
  }

  /** A lower-case letter missing from `s` in both cases is missing from
      `s.lower()`. */
  lemma LowerLacks(s: string, c: char)
    requires 'a' <= c <= 'z' && c !in s && (c as int - 32) as char !in s
    ensures c !in Lower(s)
  {
    forall i | 0 <= i < |s| ensures Lower(s)[i] != c {
      assert s[i] in s;
    }
  }

  /** Lower-casing commutes with slicing. */
  lemma LowerSlice(s: string, lo: int, hi: int)
    requires 0 <= lo <= hi <= |s|
    ensures Lower(s)[lo..hi] == Lower(s[lo..hi])
  {
  }

  lemma ContainsAt(s: string, i: int, p: string)
    requires OccursAt(s, i, p, false)
    ensures Contains(s, p)
  {
    ContainsIffOccurs(s, p);
  }

  // ---------------------------------------------------------------------------
  // strip() and split()
  // ---------------------------------------------------------------------------

  function TrimStart(s: string): (r: string)
    ensures |r| <= |s| && r == s[|s| - |r|..]
    ensures r == [] || !IsSpace(r[0])
    ensures forall k :: 0 <= k < |s| - |r| ==> IsSpace(s[k])
  {
    if s == [] || !IsSpace(s[0]) then s else TrimStart(s[1..])
  }

  function TrimEnd(s: string): (r: string)
    ensures |r| <= |s| && r == s[..|r|]
    ensures r == [] || !IsSpace(r[|r| - 1])
    ensures forall k :: |r| <= k < |s| ==> IsSpace(s[k])
  {
    if s == [] || !IsSpace(s[|s| - 1]) then s else TrimEnd(s[..|s| - 1])
  }

  /** Python's `s.strip()`: the slice of `s` between its leading and trailing
      whitespace. */
  function Strip(s: string): (r: string)
  {
    TrimEnd(TrimStart(s))
  }

  /** Where `strip()` cuts `s`: `Strip(s) == s[StripFrom(s)..StripTo(s)]`. */
  function StripFrom(s: string): nat
  {
    |s| - |TrimStart(s)|
  }

  function StripTo(s: string): nat
  {
    StripFrom(s) + |Strip(s)|
  }

  /** `strip()` keeps a contiguous slice and removes exactly whitespace. */
  lemma StripIsSlice(s: string)
    ensures 0 <= StripFrom(s) <= StripTo(s) <= |s|
    ensures Strip(s) == s[StripFrom(s)..StripTo(s)]
    ensures forall k :: 0 <= k < StripFrom(s) ==> IsSpace(s[k])
    ensures forall k :: StripTo(s) <= k < |s| ==> IsSpace(s[k])
  {
    StripSlice(s);
    StripTail(s);
  }

  lemma StripSlice(s: string)
    ensures StripTo(s) <= |s|
    ensures Strip(s) == s[StripFrom(s)..StripTo(s)]
  {
    var t := TrimStart(s);
    PrefixOfSuffix(s, |s| - |t|, t, TrimEnd(t));
  }

  lemma PrefixOfSuffix(s: string, lo: nat, t: string, r: string)
    requires lo <= |s| && t == s[lo..] && |r| <= |t| && r == t[..|r|]
    ensures lo + |r| <= |s| && r == s[lo..lo + |r|]
  {
    SliceOfSlice(s, lo, |s|, 0, |r|);
  }

  lemma StripTail(s: string)
    ensures forall k :: StripTo(s) <= k < |s| ==> IsSpace(s[k])
  {
    var t := TrimStart(s);
    var r := TrimEnd(t);
    var lo := |s| - |t|;
    forall k | lo + |r| <= k < |s| ensures IsSpace(s[k]) {
      assert s[k] == t[k - lo];
    }
  }

  /** What `strip()` returns neither starts nor ends with whitespace. */
  lemma StripEnds(s: string)
    ensures Strip(s) == [] || (!IsSpace(Strip(s)[0]) && !IsSpace(Strip(s)[|Strip(s)| - 1]))
  {
    var t := TrimStart(s);
    var r := TrimEnd(t);
    if r != [] {
      assert r[0] == t[0];
    }
  }

  /** A string with no whitespace at either end is its own `strip()`. */
  lemma StripNoOp(s: string)
    requires s == [] || (!IsSpace(s[0]) && !IsSpace(s[|s| - 1]))
    ensures Strip(s) == s
  {
  }

  lemma StripIdempotent(s: string)
    ensures Strip(Strip(s)) == Strip(s)
  {
    StripEnds(s);
    StripNoOp(Strip(s));
  }

  /** Python's `s.split()` with no separator: the maximal runs of
      non-whitespace characters, in order. */
  function Words(s: string): (r: seq<string>)
    ensures forall i :: 0 <= i < |r| ==> IsWord(r[i])
    decreases |s|
  {
    var t := TrimStart(s);
    if t == [] then []
    else
      var n := WordLength(t);
      var rest := Words(t[n..]);
      FirstWord(t);
      AllWordsCons(t[..n], rest);
      [t[..n]] + rest
  }

  lemma FirstWord(t: string)
    requires t != [] && !IsSpace(t[0])
    ensures IsWord(t[..WordLength(t)])
  {
    var n := WordLength(t);
    forall k | 0 <= k < n ensures !IsSpace(t[..n][k]) {
      assert t[..n][k] == t[k];
    }
  }

  lemma AllWordsCons(w: string, rest: seq<string>)
    requires IsWord(w) && forall i :: 0 <= i < |rest| ==> IsWord(rest[i])
    ensures forall i :: 0 <= i < |rest| + 1 ==> IsWord(([w] + rest)[i])
  {
    forall i | 0 <= i < |rest| + 1 ensures IsWord(([w] + rest)[i]) {
      if i > 0 {
        assert ([w] + rest)[i] == rest[i - 1];
      }
    }
  }

  /** A non-empty run of non-whitespace characters. */
  predicate IsWord(w: string) {
    w != [] && forall k :: 0 <= k < |w| ==> !IsSpace(w[k])
  }

  /** Length of the run of non-whitespace characters at the start of `s`. */
  function WordLength(s: string): (n: nat)
    ensures n <= |s|
    ensures forall k :: 0 <= k < n ==> !IsSpace(s[k])
    ensures n < |s| ==> IsSpace(s[n])
    ensures s != [] && !IsSpace(s[0]) ==> n > 0
  {
    if s == [] || IsSpace(s[0]) then 0 else 1 + WordLength(s[1..])
  }

  /** Leading whitespace does not change the split. */
  lemma WordsTrim(s: string)
    ensures Words(s) == Words(TrimStart(s))
  {
    TrimStartIdempotent(s);
  }

  lemma TrimStartIdempotent(s: string)
    ensures TrimStart(TrimStart(s)) == TrimStart(s)
  {
  }

  lemma TrimStartCons(c: char, x: string)
    requires IsSpace(c)
    ensures TrimStart([c] + x) == TrimStart(x)
  {
    var s := [c] + x;
    assert s != [] && s[0] == c;
    assert TrimStart(s) == TrimStart(s[1..]);
    assert s[1..] == x;
  }

  /** `WordLength` is the length of the leading run of non-whitespace. */
  lemma {:induction false} WordLengthOf(s: string, n: nat)
    requires n <= |s| && forall k :: 0 <= k < n ==> !IsSpace(s[k])
    requires n < |s| ==> IsSpace(s[n])
    ensures WordLength(s) == n
  {
    if s != [] && !IsSpace(s[0]) {
      WordLengthOf(s[1..], n - 1);
    }
  }

  /** The words of a list glued together. */
  function Concat(ws: seq<string>): string {
    if ws == [] then [] else ws[0] + Concat(ws[1..])
  }

  /** The characters of `s` that are not whitespace, in order. */
  function NonSpace(s: string): string {
    if s == [] then []
    else (if IsSpace(s[0]) then [] else [s[0]]) + NonSpace(s[1..])
  }

  /** `1` where a run of non-whitespace starts, for each position; `prevInWord`
      says whether the character before `s` was not whitespace. */
  function WordStarts(s: string, prevInWord: bool): nat {
    if s == [] then 0
    else (if !IsSpace(s[0]) && !prevInWord then 1 else 0) + WordStarts(s[1..], !IsSpace(s[0]))
  }

  lemma {:induction false} NonSpaceAppend(a: string, b: string)
    ensures NonSpace(a + b) == NonSpace(a) + NonSpace(b)
    decreases |a|
  {
    if a == [] {
      assert a + b == b;
    } else {
      var h := if IsSpace(a[0]) then [] else [a[0]];
      assert (a + b)[0] == a[0] && (a + b)[1..] == a[1..] + b;
      NonSpaceAppend(a[1..], b);
      calc {
        NonSpace(a + b);
        h + NonSpace(a[1..] + b);
        h + (NonSpace(a[1..]) + NonSpace(b));
        { AppendAssoc(h, NonSpace(a[1..]), NonSpace(b)); }
        (h + NonSpace(a[1..])) + NonSpace(b);
        NonSpace(a) + NonSpace(b);
      }
    }
  }

  lemma AppendAssoc(x: string, y: string, z: string)
    ensures x + (y + z) == (x + y) + z
  {
  }

  lemma {:induction false} NonSpaceOfWord(w: string)
    requires forall k :: 0 <= k < |w| ==> !IsSpace(w[k])
    ensures NonSpace(w) == w
    decreases |w|
  {
    if w != [] {
      NonSpaceOfWord(w[1..]);
    }
  }

  /** Leading whitespace holds no word character and starts no word. */
  lemma {:induction false} TrimStartDropsSpace(s: string)
    ensures NonSpace(TrimStart(s)) == NonSpace(s)
    ensures WordStarts(TrimStart(s), false) == WordStarts(s, false)
    decreases |s|
  {
    if s != [] && IsSpace(s[0]) {
      TrimStartDropsSpace(s[1..]);
    }
  }

  /** `split()` loses no character but whitespace and adds none: the words
      glued together are exactly the non-whitespace characters of `s`. */
  lemma {:induction false} WordsKeepNonSpace(s: string)
    ensures Concat(Words(s)) == NonSpace(s)
    decreases |s|
  {
    var t := TrimStart(s);
    TrimStartDropsSpace(s);
    WordsStep(s);
    if t != [] {
      var n := WordLength(t);
      WordsKeepNonSpace(t[n..]);
      NonSpaceSplit(t, n);
      ConcatCons(t[..n], Words(t[n..]));
    }
  }

  /** A leading run of non-whitespace is kept whole by `NonSpace`. */
  lemma NonSpaceSplit(t: string, n: nat)
    requires n <= |t| && forall k :: 0 <= k < n ==> !IsSpace(t[k])
    ensures NonSpace(t) == t[..n] + NonSpace(t[n..])
  {
    SplitJoins(t, n);
    NonSpaceAppend(t[..n], t[n..]);
    NonSpaceOfWord(t[..n]);
  }

  /** One step of `split()`: skip the leading whitespace, then cut the first
      word off. */
  lemma WordsStep(s: string)
    ensures TrimStart(s) == [] ==> Words(s) == []
    ensures TrimStart(s) != [] ==>
              Words(s) == [TrimStart(s)[..WordLength(TrimStart(s))]] + Words(TrimStart(s)[WordLength(TrimStart(s))..])
  {
  }

  lemma SplitJoins(t: string, n: nat)
    requires n <= |t|
    ensures t[..n] + t[n..] == t
  {
  }

  lemma ConcatCons(w: string, ws: seq<string>)
    ensures Concat([w] + ws) == w + Concat(ws)
  {
    assert ([w] + ws)[0] == w && ([w] + ws)[1..] == ws;
  }

  /** Inside a word, the count of word starts does not change. */
  lemma {:induction false} WordStartsInWord(s: string, k: nat, n: nat)
    requires k <= n <= |s| && forall i :: k <= i < n ==> !IsSpace(s[i])
    ensures WordStarts(s[k..], true) == WordStarts(s[n..], true)
    decreases n - k
  {
    if k < n {
      assert s[k..][0] == s[k] && s[k..][1..] == s[k + 1..];
      WordStartsInWord(s, k + 1, n);
    }
  }

  /** The words are the maximal runs: there is one word per position where
      a run of non-whitespace characters starts. */
  lemma {:induction false} WordsAreRuns(s: string)
    ensures |Words(s)| == WordStarts(s, false)
    decreases |s|
  {
    var t := TrimStart(s);
    TrimStartDropsSpace(s);
    WordsStep(s);
    if t != [] {
      var n := WordLength(t);
      WordsAreRuns(t[n..]);
      WordStartsInWord(t, 1, n);
      WordStartsAfterSpace(t[n..]);
      assert WordStarts(t, false) == 1 + WordStarts(t[1..], true);
      assert |Words(s)| == 1 + |Words(t[n..])|;
    }
  }

  /** After whitespace, whether the character before it was a word character
      does not matter. */
  lemma WordStartsAfterSpace(u: string)
    requires u == [] || IsSpace(u[0])
    ensures WordStarts(u, true) == WordStarts(u, false)
  {
  }

  /** A word followed by nothing or by whitespace is split off whole. */
  lemma WordsOfWord(w: string, rest: string)
    requires IsWord(w) && (rest == [] || IsSpace(rest[0]))
    ensures Words(w + rest) == [w] + Words(rest)
  {
    var s := w + rest;
    assert s[0] == w[0];
    assert TrimStart(s) == s;
    assert s[|w|..] == rest;
    assert s[..|w|] == w;
    assert WordLength(s) == |w| by {
      assert forall k :: 0 <= k < |w| ==> s[k] == w[k];
      WordLengthOf(s, |w|);
    }
  }

  /** A word, a whitespace character, and the rest split as the word and
      the split of the rest. */
  lemma WordThenSpace(w: string, c: char, rest: string)
    requires IsWord(w) && IsSpace(c)
    ensures Words(w + ([c] + rest)) == [w] + Words(rest)
  {
    WordsOfWord(w, [c] + rest);
    TrimStartCons(c, rest);
    WordsTrim([c] + rest);
    WordsTrim(rest);
  }

  /** A word alone splits into itself. */
  lemma OneWord(w: string)
    requires IsWord(w)
    ensures Words(w) == [w]
  {
    WordsOfWord(w, []);
    assert w + [] == w;
    assert Words([]) == [];
  }

  /** A word, whitespace and the word again split into two words. */
  lemma TwoWords(w: string, c: char)
    requires IsWord(w) && IsSpace(c)
    ensures Words(w + ([c] + w)) == [w] + [w]
  {
    WordThenSpace(w, c, w);
    OneWord(w);
  }

  /** Three copies of a word separated by whitespace split into three
      words. */
  lemma ThreeWords(w: string, c: char)
    requires IsWord(w) && IsSpace(c)
    ensures Words(w + ([c] + (w + ([c] + w)))) == [w] + ([w] + [w])
  {
    WordThenSpace(w, c, w + ([c] + w));
    TwoWords(w, c);
  }

  // ---------------------------------------------------------------------------
  // str(int)
  // ---------------------------------------------------------------------------

  function DigitChar(d: nat): (c: char)
    requires d < 10
    ensures '0' <= c <= '9' && (c as int) - ('0' as int) == d
  {
    ('0' as int + d) as char
  }

  /** Python's `str(n)` for a non-negative integer: decimal digits, no leading zero. */
  function NatToString(n: nat): (r: string)
    ensures |r| > 0 && IsDigits(r)
    ensures |r| > 1 ==> r[0] != '0'
  {
    if n < 10 then [DigitChar(n)] else NatToString(n / 10) + [DigitChar(n % 10)]
  }

  predicate IsDigits(s: string) {
    forall i :: 0 <= i < |s| ==> '0' <= s[i] <= '9'
  }

  /** The value of a string of decimal digits. */
  function DigitsValue(s: string): nat
    requires IsDigits(s)
  {
    if s == [] then 0 else DigitsValue(s[..|s| - 1]) * 10 + ((s[|s| - 1] as int) - ('0' as int))
  }

  /** Reading back `str(n)` gives `n`. */
  lemma {:induction false} NatToStringRoundTrip(n: nat)
    ensures DigitsValue(NatToString(n)) == n
  {
    var r := NatToString(n);
    if n >= 10 {
      NatToStringRoundTrip(n / 10);
      assert r[..|r| - 1] == NatToString(n / 10);
    }
  }
}
