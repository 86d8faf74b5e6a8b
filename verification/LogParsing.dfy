/** The two regular expressions of internal/drivers, with the leftmost-first meaning Go gives them:
    the leftmost start, and each greedy repetition as long as the rest of the pattern allows. */
module LogParsing {
  import opened Common

  /** \s in RE2 syntax. */
  predicate IsSpace(c: char) {
    c == ' ' || c == '\t' || c == '\n' || c == '\r' || c == '\U{0C}'
  }

  predicate AllSpaces(s: string, lo: nat, hi: nat) {
    lo <= hi <= |s| && forall k :: lo <= k < hi ==> IsSpace(s[k])
  }

  /** No occurrence of c between lo and hi. */
  predicate Without(s: string, c: char, lo: nat, hi: nat) {
    lo <= hi <= |s| && forall k :: lo <= k < hi ==> s[k] != c
  }

  predicate HasAt(s: string, at: nat, word: string) {
    at + |word| <= |s| && s[at..at + |word|] == word
  }

  /** The first position at or after `from` that holds c, or the end. */
  function IndexFrom(s: string, c: char, from: nat): (j: nat)
    requires from <= |s|
    ensures Without(s, c, from, j) && (j < |s| ==> s[j] == c)
    decreases |s| - from
  {
    if from == |s| || s[from] == c then from else IndexFrom(s, c, from + 1)
  }

  /** The first position at or after `from` that is not a space. */
  function SkipSpaces(s: string, from: nat): (j: nat)
    requires from <= |s|
    ensures AllSpaces(s, from, j) && (j < |s| ==> !IsSpace(s[j]))
    decreases |s| - from
  {
    if from == |s| || !IsSpace(s[from]) then from else SkipSpaces(s, from + 1)
  }

  // ---- Trend Micro: \([^,]+,\s*([^)]+)\)\s*virus found: ----

  const VIRUS_FOUND := "virus found:"

  /** The pattern matches at i, with the comma at j, the group from b to e, and the last literal at m. */
  predicate TmMatches(s: string, i: nat, j: nat, b: nat, e: nat, m: nat) {
    && i + 1 < j < b < |s| && s[i] == '(' && Without(s, ',', i + 1, j) && s[j] == ','
    && AllSpaces(s, j + 1, b)
    && b < e < |s| && Without(s, ')', b, e) && s[e] == ')'
    && AllSpaces(s, e + 1, m) && HasAt(s, m, VIRUS_FOUND)
  }

  /** Where the group of a match starting at i begins and ends. The spaces before the group give one
      character back when nothing else is left for it. */
  function TmGroupAt(s: string, i: nat): Option<(nat, nat)>
    requires i <= |s|
  {
    if i == |s| || s[i] != '(' then None else
    var j := IndexFrom(s, ',', i + 1);
    if j == i + 1 || j == |s| then None else
    var e := IndexFrom(s, ')', j + 1);
    if e == |s| || e == j + 1 || !HasAt(s, SkipSpaces(s, e + 1), VIRUS_FOUND) then None else
    Some((Min(SkipSpaces(s, j + 1), e - 1), e))
  }

  function TmFindFrom(s: string, i: nat): Option<(nat, nat, nat)>
    requires i <= |s|
    decreases |s| - i
  {
    var g := TmGroupAt(s, i);
    if g.Some? then Some((i, g.value.0, g.value.1)) else if i == |s| then None else TmFindFrom(s, i + 1)
  }

  /** FindStringSubmatch: the text of the group of the leftmost match. */
  function TmFind(s: string): Option<string> {
    var g := TmFindFrom(s, 0);
    if g.Some? && g.value.1 <= g.value.2 <= |s| then Some(s[g.value.1..g.value.2]) else None
  }

  /** At a given start, the search agrees with the pattern: it finds a match, the one with the longest run
      of spaces before the group, exactly when there is one. */
  lemma TmGroupIsMatch(s: string, i: nat, j: nat, b: nat, e: nat, m: nat)
    requires i <= |s| && TmMatches(s, i, j, b, e, m)
    ensures TmGroupAt(s, i).Some? && TmGroupAt(s, i).value.1 == e && b <= TmGroupAt(s, i).value.0
  {
    var j' := IndexFrom(s, ',', i + 1);
    assert j' == j;
    var e' := IndexFrom(s, ')', j + 1);
    assert e' == e by {
      assert forall k :: j + 1 <= k < b ==> IsSpace(s[k]);
    }
    var m' := SkipSpaces(s, e + 1);
    assert s[m] == s[m..m + |VIRUS_FOUND|][0];
    assert !IsSpace(s[m]);
    assert m' == m;
  }

  lemma TmGroupMatches(s: string, i: nat)
    requires i <= |s| && TmGroupAt(s, i).Some?
    ensures var (b, e) := TmGroupAt(s, i).value;
            TmMatches(s, i, IndexFrom(s, ',', i + 1), b, e, SkipSpaces(s, e + 1))
  {
  }

  predicate NoGroupIn(s: string, lo: nat, hi: nat)
    requires hi <= |s| + 1
  {
    forall k :: lo <= k < hi ==> TmGroupAt(s, k).None?
  }

  lemma NoGroupFromEarlier(s: string, lo: nat, hi: nat)
    requires lo < hi <= |s| + 1 && TmGroupAt(s, lo).None? && NoGroupIn(s, lo + 1, hi)
    ensures NoGroupIn(s, lo, hi)
  {
  }

  lemma {:induction false} TmFindFromIsLeftmost(s: string, from: nat)
    requires from <= |s|
    ensures var r := TmFindFrom(s, from);
            if r.None? then NoGroupIn(s, from, |s| + 1)
            else var (i, b, e) := r.value;
                 from <= i <= |s| && TmGroupAt(s, i) == Some((b, e)) && NoGroupIn(s, from, i)
    decreases |s| - from
  {
    if TmGroupAt(s, from).None? && from < |s| {
      TmFindFromIsLeftmost(s, from + 1);
      var r := TmFindFrom(s, from + 1);
      NoGroupFromEarlier(s, from, if r.None? then |s| + 1 else r.value.0);
    }
  }

  /** Every match starts no earlier than the one found, and among those with its start its group starts last. */
  lemma FoundIsFirst(s: string, i: nat, j: nat, b: nat, e: nat, m: nat)
    requires TmMatches(s, i, j, b, e, m)
    ensures var r := TmFindFrom(s, 0);
            r.Some? && r.value.0 <= i && (r.value.0 == i ==> b <= r.value.1 && e == r.value.2)
  {
    TmFindFromIsLeftmost(s, 0);
    TmGroupIsMatch(s, i, j, b, e, m);
  }

  lemma FoundMatches(s: string) returns (i: nat, j: nat, b: nat, e: nat, m: nat)
    requires TmFindFrom(s, 0).Some?
    ensures TmFindFrom(s, 0) == Some((i, b, e)) && TmMatches(s, i, j, b, e, m)
  {
    TmFindFromIsLeftmost(s, 0);
    i := TmFindFrom(s, 0).value.0;
    TmGroupMatches(s, i);
    b, e := TmGroupAt(s, i).value.0, TmGroupAt(s, i).value.1;
    j, m := IndexFrom(s, ',', i + 1), SkipSpaces(s, e + 1);
  }

  /** The search finds something exactly when the pattern matches somewhere; what it captures is the group of
      a match at the least start, and of those the one whose group starts last. */
  lemma TmFindIsLeftmostFirst(s: string)
    ensures TmFind(s).Some? <==> exists i: nat, j: nat, b: nat, e: nat, m: nat :: TmMatches(s, i, j, b, e, m)
    ensures TmFind(s).Some? ==>
              exists i: nat, j: nat, b: nat, e: nat, m: nat ::
                && TmMatches(s, i, j, b, e, m) && TmFind(s).value == s[b..e]
                && forall i': nat, j': nat, b': nat, e': nat, m': nat :: TmMatches(s, i', j', b', e', m') ==>
                     i <= i' && (i == i' ==> b' <= b && e' == e)
  {
    forall i: nat, j: nat, b: nat, e: nat, m: nat | TmMatches(s, i, j, b, e, m)
      ensures var r := TmFindFrom(s, 0);
              r.Some? && r.value.0 <= i && (r.value.0 == i ==> b <= r.value.1 && e == r.value.2)
    {
      FoundIsFirst(s, i, j, b, e, m);
    }
    if TmFindFrom(s, 0).Some? {
      var i, j, b, e, m := FoundMatches(s);
      assert TmFind(s) == Some(s[b..e]);
    }
  }

  /** A printed detection. */
  function TmLine(pre: string, id: string, path: string, post: string): string {
    pre + "(" + id + ", " + path + ") virus found:" + post
  }

  /** What the engine prints around the path: no parenthesis before the pieces, and an id without a comma. */
  predicate TmPrintable(pre: string, id: string) {
    '(' !in pre && id != [] && ',' !in id
  }

  /** The pieces of a printed line, wherever they lie in s. */
  predicate TmPieces(s: string, i: nat, id: string, path: string) {
    var j := i + 1 + |id|;
    var e := j + 2 + |path|;
    && HasAt(s, i, "(") && HasAt(s, i + 1, id) && HasAt(s, j, ", ") && HasAt(s, j + 2, path)
    && HasAt(s, e, ") virus found:")
  }

  lemma Peel(s: string, p: string, x: string)
    requires p + x <= s
    ensures p <= s && HasAt(s, |p|, x)
  {
    assert s[..|p| + |x|] == p + x;
    assert s[..|p|] == p;
    assert s[|p|..|p| + |x|] == s[..|p| + |x|][|p|..];
  }

  lemma TmLineHasPieces(pre: string, id: string, path: string, post: string)
    ensures pre <= TmLine(pre, id, path, post) && TmPieces(TmLine(pre, id, path, post), |pre|, id, path)
  {
    var s := TmLine(pre, id, path, post);
    var p1 := pre + "(";
    var p2 := p1 + id;
    var p3 := p2 + ", ";
    var p4 := p3 + path;
    var p5 := p4 + ") virus found:";
    assert s == p5 + post;
    Peel(s, p4, ") virus found:");
    Peel(s, p3, path);
    Peel(s, p2, ", ");
    Peel(s, p1, id);
    Peel(s, pre, "(");
  }

  lemma CharAt(s: string, at: nat, word: string, k: nat)
    requires HasAt(s, at, word) && at <= k < at + |word|
    ensures s[k] == word[k - at]
  {
    assert s[at..at + |word|][k - at] == s[k];
  }

  lemma EndsWithVirusFound(s: string, e: nat)
    requires HasAt(s, e, ") virus found:")
    ensures s[e] == ')' && AllSpaces(s, e + 1, e + 2) && HasAt(s, e + 2, VIRUS_FOUND)
  {
    CharAt(s, e, ") virus found:", e);
    CharAt(s, e, ") virus found:", e + 1);
    assert ") virus found:"[2..] == VIRUS_FOUND;
    assert s[e + 2..e + 2 + |VIRUS_FOUND|] == s[e..e + 14][2..];
  }

  lemma PieceLacks(s: string, at: nat, word: string, c: char)
    requires HasAt(s, at, word) && c !in word
    ensures Without(s, c, at, at + |word|)
  {
    forall k | at <= k < at + |word| ensures s[k] != c {
      CharAt(s, at, word, k);
    }
  }

  lemma TmPiecesMatch(s: string, i: nat, id: string, path: string)
    requires TmPieces(s, i, id, path) && TmPrintable([], id) && path != [] && ')' !in path
    ensures var b := i + 3 + |id|; TmMatches(s, i, b - 2, b, b + |path|, b + |path| + 2)
  {
    var j, b := i + 1 + |id|, i + 3 + |id|;
    CharAt(s, i, "(", i);
    PieceLacks(s, i + 1, id, ',');
    CharAt(s, j, ", ", j);
    CharAt(s, j, ", ", j + 1);
    PieceLacks(s, b, path, ')');
    EndsWithVirusFound(s, b + |path|);
  }

  /** The spaces the pattern skips before the group: those that lead the path, but never all of it. */
  function SkippedOf(path: string): nat
    requires path != []
  {
    Min(SkipSpaces(path, 0), |path| - 1)
  }

  lemma SkipStopsAt(s: string, from: nat, b: nat)
    requires AllSpaces(s, from, b) && b < |s| && !IsSpace(s[b])
    ensures SkipSpaces(s, from) == b
  {
  }

  /** The spaces from the comma on are the one printed and those that lead the path. */
  lemma SkipsIntoPath(s: string, b: nat, path: string)
    requires 0 < b && HasAt(s, b, path) && s[b - 1] == ' ' && b + |path| < |s| && s[b + |path|] == ')'
    ensures SkipSpaces(s, b - 1) == b + SkipSpaces(path, 0)
  {
    var n := SkipSpaces(path, 0);
    forall k | b - 1 <= k < b + n ensures IsSpace(s[k]) {
      if k >= b {
        CharAt(s, b, path, k);
      }
    }
    if n < |path| {
      CharAt(s, b, path, b + n);
    }
    SkipStopsAt(s, b - 1, b + n);
  }

  lemma TmGroupStart(s: string, i: nat, j: nat, b: nat, e: nat, m: nat)
    requires TmMatches(s, i, j, b, e, m)
    ensures TmGroupAt(s, i) == Some((Min(SkipSpaces(s, j + 1), e - 1), e))
  {
    TmGroupIsMatch(s, i, j, b, e, m);
    assert IndexFrom(s, ',', i + 1) == j;
  }

  /** The match at the start of printed pieces captures the path without the spaces skipped. */
  lemma TmGroupIs(s: string, i: nat, id: string, path: string)
    requires TmPieces(s, i, id, path) && TmPrintable([], id) && path != [] && ')' !in path
    ensures TmGroupAt(s, i) == Some((i + 3 + |id| + SkippedOf(path), i + 3 + |id| + |path|))
  {
    var b := i + 3 + |id|;
    TmPiecesMatch(s, i, id, path);
    TmGroupStart(s, i, b - 2, b, b + |path|, b + |path| + 2);
    CharAt(s, b - 2, ", ", b - 1);
    SkipsIntoPath(s, b, path);
  }

  lemma NoParenthesisNoGroup(s: string, hi: nat)
    requires Without(s, '(', 0, hi)
    ensures NoGroupIn(s, 0, hi)
  {
  }

  lemma FirstGroupIsFound(s: string, i: nat, b: nat, e: nat)
    requires i <= |s| && NoGroupIn(s, 0, i) && TmGroupAt(s, i) == Some((b, e)) && b <= e <= |s|
    ensures TmFind(s) == Some(s[b..e])
  {
    TmFindFromIsLeftmost(s, 0);
    var r := TmFindFrom(s, 0);
    assert r.Some?;
    assert r.value.0 == i;
  }

  lemma TailAt(s: string, at: nat, word: string, n: nat)
    requires HasAt(s, at, word) && n <= |word|
    ensures s[at + n..at + |word|] == word[n..]
  {
    assert s[at..at + |word|][n..] == s[at + n..at + |word|];
  }

  lemma NotInPrefix(s: string, pre: string, c: char)
    requires pre <= s && c !in pre
    ensures Without(s, c, 0, |pre|)
  {
    assert forall k :: 0 <= k < |pre| ==> s[k] == pre[k];
  }

  /** What is captured of a printed path without a closing parenthesis, whatever follows. */
  lemma TmFindsPath(s: string, pre: string, id: string, path: string)
    requires pre <= s && TmPieces(s, |pre|, id, path) && TmPrintable(pre, id) && path != [] && ')' !in path
    ensures TmFind(s) == Some(path[SkippedOf(path)..])
  {
    var b, n := |pre| + 3 + |id|, SkippedOf(path);
    TmGroupIs(s, |pre|, id, path);
    NotInPrefix(s, pre, '(');
    NoParenthesisNoGroup(s, |pre|);
    FirstGroupIsFound(s, |pre|, b + n, b + |path|);
    TailAt(s, b, path, n);
  }

  /** No capture is empty or holds a closing parenthesis. */
  lemma TmCaptures(s: string)
    ensures TmFind(s).Some? ==> TmFind(s).value != [] && ')' !in TmFind(s).value
  {
    if TmFind(s).Some? {
      var i, j, b, e, m := FoundMatches(s);
      assert TmFind(s).value == s[b..e];
    }
  }

  /** Parsing inverts printing, whatever follows, exactly for these paths: not empty, no closing parenthesis, and no
      space in front, unless it is all there is. */
  lemma TmFindInvertsPrinting(pre: string, id: string, path: string, post: string)
    requires TmPrintable(pre, id)
    ensures TmFind(TmLine(pre, id, path, post)) == Some(path)
            <==> path != [] && ')' !in path && (!IsSpace(path[0]) || |path| == 1)
  {
    TmCaptures(TmLine(pre, id, path, post));
    if path != [] && ')' !in path {
      TmLineHasPieces(pre, id, path, post);
      TmFindsPath(TmLine(pre, id, path, post), pre, id, path);
      assert path[0..] == path;
      assert SkippedOf(path) == 0 <==> !IsSpace(path[0]) || |path| == 1;
      assert |path[SkippedOf(path)..]| == |path| - SkippedOf(path);
    }
  }

  // ---- ClamAV: (.+):\s+(.+)\s+FOUND$ ----

  const FOUND := "FOUND"

  /** The groups are s[i..j] and s[k..l]; the dot does not match a newline. */
  predicate ClamMatches(s: string, i: nat, j: nat, k: nat, l: nat) {
    && |FOUND| <= |s| && HasAt(s, |s| - |FOUND|, FOUND)
    && i < j && j + 1 < k < l < |s| - |FOUND|
    && Without(s, '\n', i, j) && s[j] == ':'
    && AllSpaces(s, j + 1, k)
    && Without(s, '\n', k, l) && AllSpaces(s, l, |s| - |FOUND|)
  }

  /** The greatest l below `hi` that completes the match. */
  function ClamL(s: string, i: nat, j: nat, k: nat, hi: nat): (r: Option<nat>)
    ensures if r.None? then forall l: nat :: l < hi ==> !ClamMatches(s, i, j, k, l)
            else && r.value < hi && ClamMatches(s, i, j, k, r.value)
                 && forall l: nat :: r.value < l < hi ==> !ClamMatches(s, i, j, k, l)
    decreases hi
  {
    if hi == 0 then None
    else if ClamMatches(s, i, j, k, hi - 1) then Some(hi - 1) else ClamL(s, i, j, k, hi - 1)
  }

  function ClamK(s: string, i: nat, j: nat, hi: nat): (r: Option<(nat, nat)>)
    ensures if r.None? then forall k: nat, l: nat :: k < hi ==> !ClamMatches(s, i, j, k, l)
            else var (k0, l0) := r.value;
                 && k0 < hi && ClamMatches(s, i, j, k0, l0)
                 && (forall l: nat :: l0 < l ==> !ClamMatches(s, i, j, k0, l))
                 && (forall k: nat, l: nat :: k0 < k < hi ==> !ClamMatches(s, i, j, k, l))
    decreases hi
  {
    if hi == 0 then None else
    var l := ClamL(s, i, j, hi - 1, |s|);
    if l.Some? then Some((hi - 1, l.value)) else ClamK(s, i, j, hi - 1)
  }

  function ClamJ(s: string, i: nat, hi: nat): (r: Option<(nat, nat, nat)>)
    ensures if r.None? then forall j: nat, k: nat, l: nat :: j < hi ==> !ClamMatches(s, i, j, k, l)
            else var (j0, k0, l0) := r.value;
                 && j0 < hi && ClamMatches(s, i, j0, k0, l0)
                 && (forall l: nat :: l0 < l ==> !ClamMatches(s, i, j0, k0, l))
                 && (forall k: nat, l: nat :: k0 < k ==> !ClamMatches(s, i, j0, k, l))
                 && (forall j: nat, k: nat, l: nat :: j0 < j < hi ==> !ClamMatches(s, i, j, k, l))
    decreases hi
  {
    if hi == 0 then None else
    var r := ClamK(s, i, hi - 1, |s|);
    if r.Some? then Some((hi - 1, r.value.0, r.value.1)) else ClamJ(s, i, hi - 1)
  }

  /** FindStringSubmatch from start `i` on: the leftmost match, its first group the longest possible, then
      the spaces, then the second group. */
  function ClamFrom(s: string, i: nat): (r: Option<(nat, nat, nat, nat)>)
    ensures if r.None? then forall i': nat, j: nat, k: nat, l: nat :: i <= i' ==> !ClamMatches(s, i', j, k, l)
            else var (i0, j0, k0, l0) := r.value;
                 && i <= i0 && ClamMatches(s, i0, j0, k0, l0)
                 && (forall i': nat, j: nat, k: nat, l: nat :: i <= i' < i0 ==> !ClamMatches(s, i', j, k, l))
                 && (forall j: nat, k: nat, l: nat :: ClamMatches(s, i0, j, k, l) ==> j <= j0)
                 && (forall k: nat, l: nat :: ClamMatches(s, i0, j0, k, l) ==> k <= k0)
                 && (forall l: nat :: ClamMatches(s, i0, j0, k0, l) ==> l <= l0)
    decreases |s| - i
  {
    if i >= |s| then None else
    var r := ClamJ(s, i, |s|);
    if r.Some? then Some((i, r.value.0, r.value.1, r.value.2)) else ClamFrom(s, i + 1)
  }

  /** The two groups: file path and signature. */
  function ClamFind(s: string): Option<(string, string)> {
    var r := ClamFrom(s, 0);
    if r.None? then None else
    var (i, j, k, l) := r.value;
    Some((s[i..j], s[k..l]))
  }

  function ClamLine(path: string, signature: string): string {
    path + ": " + signature + " FOUND"
  }

  /** Where the pieces of a printed line are. */
  lemma ClamLineParts(path: string, signature: string)
    ensures var s := ClamLine(path, signature);
            var k := |path| + 2;
            && |s| == k + |signature| + 6 && HasAt(s, |s| - |FOUND|, FOUND)
            && s[..|path|] == path && s[|path|] == ':' && s[|path| + 1] == ' '
            && s[k..k + |signature|] == signature && s[k + |signature|] == ' '
  {
    var s := ClamLine(path, signature);
    assert s == path + ": " + signature + " FOUND";
    assert s[|s| - |FOUND|..] == FOUND;
  }

  /** A line with these pieces matches there, and no match from its start has a longer first group, later spaces or a
      longer second group. */
  lemma ClamPartsMatch(s: string, j: nat, k: nat, l: nat)
    requires 0 < j && k == j + 2 < l && |s| == l + 6 && HasAt(s, |s| - |FOUND|, FOUND)
    requires Without(s, '\n', 0, j) && s[j] == ':' && s[j + 1] == ' ' && s[l] == ' '
    requires forall x :: k <= x < l ==> !IsSpace(s[x])
    ensures ClamMatches(s, 0, j, k, l)
    ensures forall j': nat, k': nat, l': nat :: ClamMatches(s, 0, j', k', l') ==>
              j' <= j && (j' == j ==> k' <= k && (k' == k ==> l' <= l))
  {
    forall j': nat, k': nat, l': nat | ClamMatches(s, 0, j', k', l')
      ensures j' <= j && (j' == j ==> k' <= k && (k' == k ==> l' <= l))
    {
      assert IsSpace(s[j' + 1]);
      assert j' == j ==> k' <= k by {
        assert !IsSpace(s[k]);
      }
    }
  }

  lemma ClamFindsMatch(s: string, j: nat, k: nat, l: nat)
    requires ClamMatches(s, 0, j, k, l)
    requires forall j': nat, k': nat, l': nat :: ClamMatches(s, 0, j', k', l') ==>
               j' <= j && (j' == j ==> k' <= k && (k' == k ==> l' <= l))
    ensures ClamFind(s) == Some((s[..j], s[k..l]))
  {
    var (i0, j0, k0, l0) := ClamFrom(s, 0).value;
    assert i0 == 0;
    assert j0 == j && k0 == k && l0 == l;
    assert s[0..j] == s[..j];
  }

  /** Parsing inverts printing exactly for paths that are not empty and of one line, even those that contain ": ", as
      long as the signature has no white space. */
  lemma ClamFindInvertsPrinting(path: string, signature: string)
    requires signature != [] && forall c :: c in signature ==> !IsSpace(c)
    ensures ClamFind(ClamLine(path, signature)) == Some((path, signature)) <==> path != [] && '\n' !in path
  {
    if path != [] && '\n' !in path {
      ClamFindsLine(path, signature);
    } else {
      ClamCaptures(ClamLine(path, signature));
    }
  }

  /** No captured path is empty or holds a newline. */
  lemma ClamCaptures(s: string)
    ensures ClamFind(s).Some? ==> ClamFind(s).value.0 != [] && '\n' !in ClamFind(s).value.0
  {
    if ClamFind(s).Some? {
      var (i, j, k, l) := ClamFrom(s, 0).value;
      assert ClamFind(s).value.0 == s[i..j];
    }
  }

  lemma ClamFindsLine(path: string, signature: string)
    requires path != [] && '\n' !in path
    requires signature != [] && forall c :: c in signature ==> !IsSpace(c)
    ensures ClamFind(ClamLine(path, signature)) == Some((path, signature))
  {
    var s := ClamLine(path, signature);
    var j, k, l := |path|, |path| + 2, |path| + 2 + |signature|;
    ClamLineParts(path, signature);
    forall x: nat | x < j ensures s[x] != '\n' {
      assert s[..j][x] == path[x];
    }
    forall x: nat | k <= x < l ensures !IsSpace(s[x]) {
      assert s[k..l][x - k] == signature[x - k];
    }
    ClamPartsMatch(s, j, k, l);
    ClamFindsMatch(s, j, k, l);
  }
}
