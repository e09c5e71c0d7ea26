/** The string helpers of uwufetch: the replace loops built on strstr and strcasestr,
    bracket removal, truncate_name and the single-space strsep splitter. */
module CStrings {
  import opened Wrappers

  // ------------------------------------------------------------------
  // strstr and strcasestr

  /** tolower in the C locale. */
  function ToLower(c: char): char {
    if 'A' <= c <= 'Z' then (c as int + 32) as char else c
  }

  /** How strstr (exactly) and strcasestr (ignoring ASCII case) compare two characters. */
  predicate CharEq(a: char, b: char, ignoreCase: bool) {
    if ignoreCase then ToLower(a) == ToLower(b) else a == b
  }

  /** `x` and `y` agree, character by character, on their common length. */
  predicate Agree(x: string, y: string, ignoreCase: bool) {
    x == [] || y == [] || (CharEq(x[0], y[0], ignoreCase) && Agree(x[1..], y[1..], ignoreCase))
  }

  lemma {:induction false} AgreeAt(x: string, y: string, ignoreCase: bool)
    ensures Agree(x, y, ignoreCase) <==>
      forall i :: 0 <= i < |x| && i < |y| ==> CharEq(x[i], y[i], ignoreCase)
  {
    if x != [] && y != [] {
      AgreeAt(x[1..], y[1..], ignoreCase);
      assert forall i :: 1 <= i < |x| && i < |y| ==> x[1..][i - 1] == x[i] && y[1..][i - 1] == y[i];
    }
  }

  /** `s` occurs in `t` starting at index `p`. */
  predicate MatchAt(t: string, p: nat, s: string, ignoreCase: bool) {
    p + |s| <= |t| && Agree(t[p..], s, ignoreCase)
  }

  function FindFrom(t: string, s: string, ignoreCase: bool, p: nat): (r: Option<nat>)
    requires p <= |t|
    ensures r.Some? ==> p <= r.value && r.value + |s| <= |t|
    decreases |t| - p
  {
    if MatchAt(t, p, s, ignoreCase) then Some(p)
    else if p == |t| then None
    else FindFrom(t, s, ignoreCase, p + 1)
  }

  /** strstr (`ignoreCase` false) or strcasestr (true): the index of the first
      occurrence of `s` in `t`, or None for a NULL result. */
  function Find(t: string, s: string, ignoreCase: bool): (r: Option<nat>)
    ensures r.Some? ==> r.value + |s| <= |t|
  {
    FindFrom(t, s, ignoreCase, 0)
  }

  lemma {:induction false} FindFromSpec(t: string, s: string, ignoreCase: bool, p: nat)
    requires p <= |t|
    ensures var r := FindFrom(t, s, ignoreCase, p);
      && (r.Some? ==> p <= r.value && MatchAt(t, r.value, s, ignoreCase))
      && (r.Some? ==> forall q :: p <= q < r.value ==> !MatchAt(t, q, s, ignoreCase))
      && (r.None? ==> forall q :: p <= q <= |t| ==> !MatchAt(t, q, s, ignoreCase))
    decreases |t| - p
  {
    if !MatchAt(t, p, s, ignoreCase) && p < |t| {
      FindFromSpec(t, s, ignoreCase, p + 1);
    }
  }

  /** The first occurrence is an occurrence, none comes before it, and NULL means
      there is none at all. */
  lemma FindSpec(t: string, s: string, ignoreCase: bool)
    ensures var r := Find(t, s, ignoreCase);
      && (r.Some? ==> MatchAt(t, r.value, s, ignoreCase))
      && (r.Some? ==> forall q :: 0 <= q < r.value ==> !MatchAt(t, q, s, ignoreCase))
      && (r.None? ==> forall q :: 0 <= q <= |t| ==> !MatchAt(t, q, s, ignoreCase))
  {
    FindFromSpec(t, s, ignoreCase, 0);
  }

  /** An occurrence is an occurrence in the part of the text that holds it. */
  lemma MatchShift(a: string, b: string, q: nat, s: string, ignoreCase: bool)
    ensures MatchAt(a + b, |a| + q, s, ignoreCase) <==> MatchAt(b, q, s, ignoreCase)
  {
    if q <= |b| {
      assert (a + b)[|a| + q..] == b[q..];
    }
  }

  /** With no occurrence before index m, the first occurrence is the first one in the text from m. */
  lemma FindAfter(u: string, m: nat, s: string, ignoreCase: bool)
    requires m <= |u|
    requires forall q :: 0 <= q < m ==> !MatchAt(u, q, s, ignoreCase)
    ensures Find(u, s, ignoreCase) == match Find(u[m..], s, ignoreCase)
      case None => None
      case Some(x) => Some(x + m)
  {
    assert u == u[..m] + u[m..];
    FindSpec(u, s, ignoreCase);
    FindSpec(u[m..], s, ignoreCase);
    match Find(u[m..], s, ignoreCase)
    case None =>
      forall q | m <= q <= |u| ensures !MatchAt(u, q, s, ignoreCase) {
        MatchShift(u[..m], u[m..], q - m, s, ignoreCase);
      }
    case Some(x) =>
      forall q | m <= q < m + x ensures !MatchAt(u, q, s, ignoreCase) {
        MatchShift(u[..m], u[m..], q - m, s, ignoreCase);
      }
      MatchShift(u[..m], u[m..], x, s, ignoreCase);
  }

  // ------------------------------------------------------------------
  // When the replace loop terminates

  /** `x[i..]` and `y[k..]` agree on their common length (Agree, by indices). */
  predicate AgreeFrom(x: string, i: nat, y: string, k: nat, ignoreCase: bool)
    decreases |x| - i
  {
    i >= |x| || k >= |y| || (CharEq(x[i], y[k], ignoreCase) && AgreeFrom(x, i + 1, y, k + 1, ignoreCase))
  }

  lemma {:induction false} AgreeFromIsAgree(x: string, i: nat, y: string, k: nat, ignoreCase: bool)
    requires i <= |x| && k <= |y|
    ensures AgreeFrom(x, i, y, k, ignoreCase) == Agree(x[i..], y[k..], ignoreCase)
    decreases |x| - i
  {
    if i < |x| && k < |y| {
      assert x[i..][1..] == x[i + 1..] && y[k..][1..] == y[k + 1..];
      AgreeFromIsAgree(x, i + 1, y, k + 1, ignoreCase);
    }
  }

  /** No suffix `x[j'..]` of `x` with j <= j' agrees with `y`. */
  predicate NoneAgreeFrom(x: string, j: nat, y: string, ignoreCase: bool)
    decreases |x| - j
  {
    j >= |x| || (!AgreeFrom(x, j, y, 0, ignoreCase) && NoneAgreeFrom(x, j + 1, y, ignoreCase))
  }

  lemma {:induction false} NoneAgreeFromAt(x: string, j: nat, y: string, ignoreCase: bool, j': nat)
    requires NoneAgreeFrom(x, j, y, ignoreCase) && j <= j' < |x|
    ensures !Agree(x[j'..], y, ignoreCase)
    decreases j' - j
  {
    if j' == j {
      AgreeFromIsAgree(x, j, y, 0, ignoreCase);
      assert y[0..] == y;
    } else {
      NoneAgreeFromAt(x, j + 1, y, ignoreCase, j');
    }
  }

  /** The search term and its replacer cannot overlap: no occurrence of the term can
      start inside the replacer, and no proper suffix of the term agrees with the
      replacer's start. Then a replacement never creates an occurrence that begins
      before the end of the replacer just written. */
  predicate Isolated(s: string, r: string, ignoreCase: bool) {
    |s| > 0 && NoneAgreeFrom(r, 0, s, ignoreCase) && NoneAgreeFrom(s, 1, r, ignoreCase)
  }

  /** An occurrence that starts inside a written replacer agrees with the rest of it. */
  lemma StartInside(u: string, p: nat, r: string, q: nat, s: string, ignoreCase: bool)
    requires p <= q < p + |r| <= |u| && u[p..p + |r|] == r
    requires MatchAt(u, q, s, ignoreCase)
    ensures Agree(r[q - p..], s, ignoreCase)
  {
    AgreeAt(r[q - p..], s, ignoreCase);
    AgreeAt(u[q..], s, ignoreCase);
    forall i | 0 <= i < |r[q - p..]| && i < |s| ensures CharEq(r[q - p..][i], s[i], ignoreCase) {
      assert r[q - p..][i] == u[p..p + |r|][q - p + i] == u[q..][i];
    }
  }

  /** An occurrence that starts before a written replacer and reaches it agrees with it. */
  lemma StraddleLeft(u: string, p: nat, r: string, q: nat, s: string, ignoreCase: bool)
    requires q < p < q + |s| && p + |r| <= |u| && u[p..p + |r|] == r
    requires MatchAt(u, q, s, ignoreCase)
    ensures Agree(s[p - q..], r, ignoreCase)
  {
    AgreeAt(s[p - q..], r, ignoreCase);
    AgreeAt(u[q..], s, ignoreCase);
    forall i | 0 <= i < |s[p - q..]| && i < |r|
      ensures CharEq(s[p - q..][i], r[i], ignoreCase)
    {
      assert r[i] == u[p..p + |r|][i] == u[q..][p - q + i];
      assert CharEq(u[q..][p - q + i], s[p - q + i], ignoreCase);
    }
  }

  /** Writing an isolated replacer where the first occurrence was leaves no occurrence
      that begins before the replacer's end. */
  lemma NoMatchBeforeReplacer(t: string, p: nat, r: string, w: string, s: string, ignoreCase: bool)
    requires Isolated(s, r, ignoreCase) && p <= |t|
    requires forall q :: 0 <= q < p ==> !MatchAt(t, q, s, ignoreCase)
    ensures forall q :: 0 <= q < p + |r| ==> !MatchAt(t[..p] + r + w, q, s, ignoreCase)
  {
    var u := t[..p] + r + w;
    assert u[p..p + |r|] == r;
    forall q | 0 <= q < p + |r| ensures !MatchAt(u, q, s, ignoreCase) {
      if MatchAt(u, q, s, ignoreCase) {
        if q >= p {
          StartInside(u, p, r, q, s, ignoreCase);
          NoneAgreeFromAt(r, 0, s, ignoreCase, q - p);
        } else if q + |s| > p {
          StraddleLeft(u, p, r, q, s, ignoreCase);
          NoneAgreeFromAt(s, 1, r, ignoreCase, p - q);
        } else {
          MatchInPrefix(u, t, p, q, s, ignoreCase);
        }
      }
    }
  }

  /** Whether `s` occurs at `q` depends only on the text up to the occurrence's end. */
  lemma MatchInPrefix(u: string, t: string, n: nat, q: nat, s: string, ignoreCase: bool)
    requires n <= |u| && n <= |t| && u[..n] == t[..n] && q + |s| <= n
    ensures MatchAt(u, q, s, ignoreCase) ==> MatchAt(t, q, s, ignoreCase)
  {
    AgreeAt(u[q..], s, ignoreCase);
    AgreeAt(t[q..], s, ignoreCase);
    forall j | 0 <= j < |s| ensures u[q..][j] == t[q..][j] {
      assert u[q..][j] == u[..n][q + j] && t[q..][j] == t[..n][q + j];
    }
  }

  /** An occurrence with none before it is the one Find returns. */
  lemma FindIs(t: string, s: string, ignoreCase: bool, p: nat)
    requires MatchAt(t, p, s, ignoreCase)
    requires forall q :: 0 <= q < p ==> !MatchAt(t, q, s, ignoreCase)
    ensures Find(t, s, ignoreCase) == Some(p)
  {
    FindSpec(t, s, ignoreCase);
  }

  // ------------------------------------------------------------------
  // Replacing every occurrence

  /** Every occurrence of `s` replaced by `r`, scanning left to right. */
  function ReplaceAll(t: string, s: string, r: string, ignoreCase: bool): string
    requires |s| > 0
    decreases |t|
  {
    match Find(t, s, ignoreCase)
    case None => t
    case Some(p) => t[..p] + r + ReplaceAll(t[p + |s|..], s, r, ignoreCase)
  }

  /** How many replacements ReplaceAll makes. */
  function Occurrences(t: string, s: string, ignoreCase: bool): nat
    requires |s| > 0
    decreases |t|
  {
    match Find(t, s, ignoreCase)
    case None => 0
    case Some(p) => 1 + Occurrences(t[p + |s|..], s, ignoreCase)
  }

  /** One replacement, then the rest of the text. */
  lemma ReplaceAllFirst(t: string, s: string, r: string, ignoreCase: bool, p: nat)
    requires |s| > 0 && Find(t, s, ignoreCase) == Some(p)
    ensures ReplaceAll(t, s, r, ignoreCase) == t[..p] + r + ReplaceAll(t[p + |s|..], s, r, ignoreCase)
    ensures Occurrences(t, s, ignoreCase) == 1 + Occurrences(t[p + |s|..], s, ignoreCase)
  {
    ReplaceAllUnfold(t, s, r, ignoreCase);
    OccurrencesUnfold(t, s, ignoreCase);
  }

  lemma ReplaceAllUnfold(t: string, s: string, r: string, ignoreCase: bool)
    requires |s| > 0 && Find(t, s, ignoreCase).Some?
    ensures var p := Find(t, s, ignoreCase).value;
      ReplaceAll(t, s, r, ignoreCase) == t[..p] + r + ReplaceAll(t[p + |s|..], s, r, ignoreCase)
  {
  }

  lemma OccurrencesUnfold(t: string, s: string, ignoreCase: bool)
    requires |s| > 0 && Find(t, s, ignoreCase).Some?
    ensures var p := Find(t, s, ignoreCase).value;
      Occurrences(t, s, ignoreCase) == 1 + Occurrences(t[p + |s|..], s, ignoreCase)
  {
  }

  /** The text before the first occurrence is kept as it is. */
  lemma ReplaceAllSkips(u: string, m: nat, s: string, r: string, ignoreCase: bool)
    requires |s| > 0 && m <= |u|
    requires forall q :: 0 <= q < m ==> !MatchAt(u, q, s, ignoreCase)
    ensures ReplaceAll(u, s, r, ignoreCase) == u[..m] + ReplaceAll(u[m..], s, r, ignoreCase)
  {
    FindAfter(u, m, s, ignoreCase);
    match Find(u[m..], s, ignoreCase)
    case None =>
      assert u == u[..m] + u[m..];
    case Some(x) =>
      SkipToOccurrence(u, m, x, s, r, ignoreCase);
  }

  /** ... and counts no replacement. */
  lemma OccurrencesSkip(u: string, m: nat, s: string, ignoreCase: bool)
    requires |s| > 0 && m <= |u|
    requires forall q :: 0 <= q < m ==> !MatchAt(u, q, s, ignoreCase)
    ensures Occurrences(u, s, ignoreCase) == Occurrences(u[m..], s, ignoreCase)
  {
    FindAfter(u, m, s, ignoreCase);
    match Find(u[m..], s, ignoreCase)
    case None =>
    case Some(x) =>
      CountFromOccurrence(u, m, x, s, ignoreCase);
  }

  lemma SkipToOccurrence(u: string, m: nat, x: nat, s: string, r: string, ignoreCase: bool)
    requires |s| > 0 && m <= |u|
    requires Find(u, s, ignoreCase) == Some(m + x) && Find(u[m..], s, ignoreCase) == Some(x)
    ensures ReplaceAll(u, s, r, ignoreCase) == u[..m] + ReplaceAll(u[m..], s, r, ignoreCase)
  {
    var tail := u[m + x + |s|..];
    assert u[m..][x + |s|..] == tail;
    var w := ReplaceAll(tail, s, r, ignoreCase);
    ReplaceAllAt(u, s, r, ignoreCase, m + x, w);
    ReplaceAllAt(u[m..], s, r, ignoreCase, x, w);
    SplitPrefix(u, m, x, r, w);
  }

  lemma ReplaceAllAt(t: string, s: string, r: string, ignoreCase: bool, p: nat, w: string)
    requires |s| > 0 && Find(t, s, ignoreCase) == Some(p)
    requires w == ReplaceAll(t[p + |s|..], s, r, ignoreCase)
    ensures ReplaceAll(t, s, r, ignoreCase) == t[..p] + r + w
  {
    ReplaceAllFirst(t, s, r, ignoreCase, p);
  }

  lemma CountFromOccurrence(u: string, m: nat, x: nat, s: string, ignoreCase: bool)
    requires |s| > 0 && m <= |u|
    requires Find(u, s, ignoreCase) == Some(m + x) && Find(u[m..], s, ignoreCase) == Some(x)
    ensures Occurrences(u, s, ignoreCase) == Occurrences(u[m..], s, ignoreCase)
  {
    assert u[m..][x + |s|..] == u[m + x + |s|..];
  }

  lemma SplitPrefix(u: string, m: nat, x: nat, r: string, w: string)
    requires m + x <= |u|
    ensures u[..m + x] + r + w == u[..m] + (u[m..][..x] + r + w)
  {
    assert u[..m + x] == u[..m] + u[m..][..x];
  }

  /** One pass of the C loop, replacing the first occurrence, keeps what the full
      left-to-right replacement yields and uses up one of its replacements. */
  lemma ReplaceStep(t: string, s: string, r: string, ignoreCase: bool, p: nat)
    requires Isolated(s, r, ignoreCase) && Find(t, s, ignoreCase) == Some(p)
    ensures ReplaceAll(t[..p] + r + t[p + |s|..], s, r, ignoreCase) == ReplaceAll(t, s, r, ignoreCase)
    ensures Occurrences(t[..p] + r + t[p + |s|..], s, ignoreCase) + 1 == Occurrences(t, s, ignoreCase)
  {
    var rest := t[p + |s|..];
    var u := t[..p] + r + rest;
    FindSpec(t, s, ignoreCase);
    NoMatchBeforeReplacer(t, p, r, rest, s, ignoreCase);
    Parts(t[..p], r, rest);
    ReplaceAllFirst(t, s, r, ignoreCase, p);
    ReplaceAllSkips(u, p + |r|, s, r, ignoreCase);
    OccurrencesSkip(u, p + |r|, s, ignoreCase);
  }

  lemma Parts(a: string, r: string, w: string)
    ensures (a + r + w)[..|a| + |r|] == a + r && (a + r + w)[|a| + |r|..] == w
  {
  }

  /** The search term no longer occurs once every occurrence has been replaced. */
  lemma {:induction false} ReplaceAllLeavesNoMatch(t: string, s: string, r: string, ignoreCase: bool)
    requires Isolated(s, r, ignoreCase)
    ensures Find(ReplaceAll(t, s, r, ignoreCase), s, ignoreCase).None?
    decreases |t|
  {
    match Find(t, s, ignoreCase)
    case None =>
    case Some(p) =>
      var rest := ReplaceAll(t[p + |s|..], s, r, ignoreCase);
      ReplaceAllLeavesNoMatch(t[p + |s|..], s, r, ignoreCase);
      ReplaceAllAt(t, s, r, ignoreCase, p, rest);
      FindSpec(t, s, ignoreCase);
      NoMatchAround(t, p, r, rest, s, ignoreCase);
  }

  /** An isolated replacer between a text with no earlier match and a text with no
      match at all creates none. */
  lemma NoMatchAround(t: string, p: nat, r: string, rest: string, s: string, ignoreCase: bool)
    requires Isolated(s, r, ignoreCase) && p <= |t|
    requires forall q :: 0 <= q < p ==> !MatchAt(t, q, s, ignoreCase)
    requires Find(rest, s, ignoreCase).None?
    ensures Find(t[..p] + r + rest, s, ignoreCase).None?
  {
    var u := t[..p] + r + rest;
    FindSpec(rest, s, ignoreCase);
    NoMatchBeforeReplacer(t, p, r, rest, s, ignoreCase);
    forall q | p + |r| <= q <= |u| ensures !MatchAt(u, q, s, ignoreCase) {
      MatchShift(t[..p] + r, rest, q - (p + |r|), s, ignoreCase);
    }
    FindSpec(u, s, ignoreCase);
  }

  /** Each replacement changes the length by the difference of the two terms. */
  lemma {:induction false} ReplaceAllLength(t: string, s: string, r: string, ignoreCase: bool)
    requires |s| > 0
    ensures |ReplaceAll(t, s, r, ignoreCase)| == |t| + Occurrences(t, s, ignoreCase) * (|r| - |s|)
    decreases |t|
  {
    match Find(t, s, ignoreCase)
    case None =>
    case Some(p) =>
      var rest := t[p + |s|..];
      ReplaceAllFirst(t, s, r, ignoreCase, p);
      ReplaceAllLength(rest, s, r, ignoreCase);
      OneMore(Occurrences(rest, s, ignoreCase), |r| - |s|);
  }

  lemma OneMore(k: nat, d: int)
    ensures (1 + k) * d == d + k * d
  {
  }

  /** Text in which the term does not occur is left unchanged. */
  lemma ReplaceAllNoMatch(t: string, s: string, r: string, ignoreCase: bool)
    requires |s| > 0 && Find(t, s, ignoreCase).None?
    ensures ReplaceAll(t, s, r, ignoreCase) == t && Occurrences(t, s, ignoreCase) == 0
  {
  }

  /** Replacing changes the length in the direction of the replacer's length
      difference, and by at least that difference once there is an occurrence. */
  lemma LengthWithin(t: string, s: string, r: string, ignoreCase: bool)
    requires |s| > 0
    ensures |r| >= |s| ==> |t| <= |ReplaceAll(t, s, r, ignoreCase)|
    ensures |r| < |s| ==> |ReplaceAll(t, s, r, ignoreCase)| <= |t|
    ensures Find(t, s, ignoreCase).Some? && |r| >= |s| ==> |t| + (|r| - |s|) <= |ReplaceAll(t, s, r, ignoreCase)|
    ensures Find(t, s, ignoreCase).Some? && |r| < |s| ==> |ReplaceAll(t, s, r, ignoreCase)| <= |t| + (|r| - |s|)
  {
    ReplaceAllLength(t, s, r, ignoreCase);
    var k, d := Occurrences(t, s, ignoreCase), |r| - |s|;
    assert |ReplaceAll(t, s, r, ignoreCase)| == |t| + k * d;
    if Find(t, s, ignoreCase).Some? {
      OccurrencesUnfold(t, s, ignoreCase);
      assert k >= 1;
    }
    if d >= 0 {
      assert k * d >= 0;
      assert k >= 1 ==> k * d >= d;
    } else {
      assert k * d <= 0;
      assert k >= 1 ==> k * d <= d;
    }
  }

  /** Size of the local buffer the replace loops rebuild the text in. */
  const ReplaceBufferSize: nat := 1024

  /** replace (`ignoreCase` false, strstr) and replace_ignorecase (true, strcasestr):
      while the term occurs, the text before its first occurrence, the replacer and the
      text after it are printed into the 1024-byte buffer and copied back. The loop
      ends, and then equals one left-to-right pass, when term and replacer are isolated;
      every text the buffer holds along the way lies between the original and the
      final one in length, so both fitting is what the buffer needs. */
  method ReplaceEvery(original: string, search: string, replacer: string, ignoreCase: bool)
    returns (result: string)
    requires Isolated(search, replacer, ignoreCase)
    requires |original| < ReplaceBufferSize
    requires |ReplaceAll(original, search, replacer, ignoreCase)| < ReplaceBufferSize
    ensures result == ReplaceAll(original, search, replacer, ignoreCase)
    ensures Find(result, search, ignoreCase).None?
    ensures Find(original, search, ignoreCase).None? ==> result == original
  {
    ghost var final := ReplaceAll(original, search, replacer, ignoreCase);
    LengthWithin(original, search, replacer, ignoreCase);
    result := original;
    var found := Find(result, search, ignoreCase);
    while found.Some?
      invariant found == Find(result, search, ignoreCase)
      invariant ReplaceAll(result, search, replacer, ignoreCase) == final
      invariant |replacer| >= |search| ==> |original| <= |result| <= |final|
      invariant |replacer| < |search| ==> |final| <= |result| <= |original|
      decreases Occurrences(result, search, ignoreCase)
    {
      var p := found.value;
      var buffer := result[..p] + replacer + result[p + |search|..];
      ReplaceStep(result, search, replacer, ignoreCase, p);
      LengthWithin(result, search, replacer, ignoreCase);
      result := buffer;
      found := Find(result, search, ignoreCase);
    }
    ReplaceAllLeavesNoMatch(original, search, replacer, ignoreCase);
  }

  /** A replacer that itself contains the term brings the term back at every pass, so
      the loop of ReplaceEvery would never end: why the "cpu", "gpu" and "apple"
      replacers carry a backspace. */
  lemma ReplacerWithTermKeepsMatching(t: string, s: string, r: string, ignoreCase: bool, j: nat)
    requires MatchAt(r, j, s, ignoreCase) && Find(t, s, ignoreCase).Some?
    ensures var p := Find(t, s, ignoreCase).value;
      Find(t[..p] + r + t[p + |s|..], s, ignoreCase).Some?
  {
    var p := Find(t, s, ignoreCase).value;
    var u := t[..p] + r + t[p + |s|..];
    assert u == t[..p] + (r + t[p + |s|..]);
    MatchShift(r, t[p + |s|..], j, s, ignoreCase);
    assert MatchAt(r + t[p + |s|..], j, s, ignoreCase) by {
      var v := r + t[p + |s|..];
      AgreeAt(r[j..], s, ignoreCase);
      AgreeAt(v[j..], s, ignoreCase);
      forall i | 0 <= i < |s| ensures CharEq(v[j..][i], s[i], ignoreCase) {
        assert v[j..][i] == r[j..][i];
      }
    }
    MatchShift(t[..p], r + t[p + |s|..], j, s, ignoreCase);
    FindSpec(u, s, ignoreCase);
  }

  /** Isolated is sufficient for ReplaceEvery, not necessary: "b" can recreate the
      term "ab". On "aab" the loop replaces at 1 and then at 0 of "ab", ending at
      "b", where one left-to-right pass gives "ab". */
  lemma OverlappingReplacer()
    ensures !Isolated("ab", "b", false)
    ensures Find("aab", "ab", false) == Some(1) && Find("ab", "ab", false) == Some(0)
    ensures Find("b", "ab", false).None?
    ensures ReplaceAll("aab", "ab", "b", false) == "ab"
  {
    FindFromSpec("aab", "ab", false, 0);
    FindFromSpec("ab", "ab", false, 0);
    FindFromSpec("b", "ab", false, 0);
  }

  /** The example of the replace documentation. */
  lemma HelloWorld()
    ensures ReplaceAll("Hello World!", "World", "everyone", false) == "Hello everyone!"
  {
    var t := "Hello World!";
    assert t[6..] == "World!";
    assert MatchAt(t, 6, "World", false);
    forall q | 0 <= q < 6 ensures !MatchAt(t, q, "World", false) {
      assert t[q..][0] != 'W';
    }
    FindIs(t, "World", false, 6);
    FindSpec("!", "World", false);
    ReplaceAllFirst(t, "World", "everyone", false, 6);
    assert t[..6] == "Hello " && t[11..] == "!";
  }

  /** The documentation example's term and replacer are isolated, so its loop ends. */
  lemma HelloWorldIsolated()
    ensures Isolated("World", "everyone", false)
  {
  }

  // ------------------------------------------------------------------
  // strchr

  /** The index of the first `c` in `s`, or |s| when there is none. */
  function IndexOf(s: string, c: char): (k: nat)
    ensures k <= |s|
    ensures k < |s| ==> s[k] == c
    ensures forall i :: 0 <= i < k ==> s[i] != c
  {
    if s == [] || s[0] == c then 0 else 1 + IndexOf(s[1..], c)
  }

  // ------------------------------------------------------------------
  // remove_brackets

  predicate IsBracket(c: char) {
    c == '[' || c == ']'
  }

  /** The text with every '[' and ']' deleted and the other characters kept in order. */
  function WithoutBrackets(s: string): (r: string)
    ensures |r| <= |s|
  {
    if s == [] then []
    else (if IsBracket(s[0]) then [] else [s[0]]) + WithoutBrackets(s[1..])
  }

  /** Deleting brackets from two pieces deletes them from their concatenation. */
  lemma {:induction false} WithoutBracketsAppend(a: string, b: string)
    ensures WithoutBrackets(a + b) == WithoutBrackets(a) + WithoutBrackets(b)
  {
    if a == [] {
      assert a + b == b;
    } else {
      assert (a + b)[1..] == a[1..] + b;
      WithoutBracketsAppend(a[1..], b);
      var head: string := if IsBracket(a[0]) then [] else [a[0]];
      assert head + (WithoutBrackets(a[1..]) + WithoutBrackets(b))
          == (head + WithoutBrackets(a[1..])) + WithoutBrackets(b);
    }
  }

  /** No bracket is left. */
  lemma {:induction false} WithoutBracketsHasNone(s: string)
    ensures forall i :: 0 <= i < |WithoutBrackets(s)| ==> !IsBracket(WithoutBrackets(s)[i])
  {
    if s != [] {
      WithoutBracketsHasNone(s[1..]);
    }
  }

  /** Every other character is kept, as often as it occurs, and only brackets go:
      the length drops by the number of brackets. */
  lemma {:induction false} WithoutBracketsCounts(s: string)
    ensures forall c :: !IsBracket(c) ==> multiset(WithoutBrackets(s))[c] == multiset(s)[c]
    ensures |WithoutBrackets(s)| == |s| - multiset(s)['['] - multiset(s)[']']
  {
    if s != [] {
      var head: string := if IsBracket(s[0]) then [] else [s[0]];
      var rest := WithoutBrackets(s[1..]);
      WithoutBracketsCounts(s[1..]);
      MultisetCons(s);
      assert WithoutBrackets(s) == head + rest;
      assert multiset(head + rest) == multiset(head) + multiset(rest);
    }
  }

  lemma MultisetCons(s: string)
    requires s != []
    ensures multiset(s) == multiset([s[0]]) + multiset(s[1..])
  {
    assert s == [s[0]] + s[1..];
  }

  /** Text without brackets is left as it is. */
  lemma {:induction false} WithoutBracketsKeeps(s: string)
    requires forall i :: 0 <= i < |s| ==> !IsBracket(s[i])
    ensures WithoutBrackets(s) == s
  {
    if s != [] {
      WithoutBracketsKeeps(s[1..]);
    }
  }

  /** Removing brackets a second time changes nothing. */
  lemma WithoutBracketsIdempotent(s: string)
    ensures WithoutBrackets(WithoutBrackets(s)) == WithoutBrackets(s)
  {
    WithoutBracketsHasNone(s);
    WithoutBracketsKeeps(WithoutBrackets(s));
  }

  /** strlen of a character array: the index of its first NUL, the array's length when
      it has none. */
  function CLength(s: seq<char>): (n: nat)
    ensures n <= |s| && (n < |s| ==> s[n] == '\0')
    ensures forall i :: 0 <= i < n ==> s[i] != '\0'
  {
    IndexOf(s, '\0')
  }

  lemma CLengthIs(s: seq<char>, n: nat)
    requires n < |s| && s[n] == '\0' && forall i :: 0 <= i < n ==> s[i] != '\0'
    ensures CLength(s) == n
  {
  }

  /** One step of the outer loop past a bracket that was shifted out. */
  lemma DropBracket(s: string, i: nat, n: nat)
    requires i < n <= |s| && IsBracket(s[i])
    ensures WithoutBrackets(s[i..n]) == WithoutBrackets(s[i + 1..n])
  {
    assert s[i..n][1..] == s[i + 1..n];
  }

  /** What ShiftLeft leaves over a bracket: the same text without brackets. */
  lemma Shifted(before: string, after: string, i: nat, n: nat)
    requires i < n <= |before| == |after|
    requires forall k :: 0 <= k < i ==> after[k] == before[k]
    requires forall k :: i <= k < n - 1 ==> after[k] == before[k + 1]
    requires IsBracket(before[i])
    ensures after[..i] + WithoutBrackets(after[i..n - 1]) == before[..i] + WithoutBrackets(before[i..n])
  {
    assert after[..i] == before[..i] && after[i..n - 1] == before[i + 1..n];
    DropBracket(before, i, n);
  }

  /** One step of the outer loop past a character that is kept. */
  lemma KeepChar(s: string, i: nat, n: nat)
    requires i < n <= |s| && !IsBracket(s[i])
    ensures s[..i] + WithoutBrackets(s[i..n]) == s[..i + 1] + WithoutBrackets(s[i + 1..n])
  {
    assert s[i..n][1..] == s[i + 1..n];
    assert s[..i + 1] == s[..i] + [s[i]];
  }

  /** remove_brackets: while `i` is below the current strlen, a bracket at `i` is
      deleted by shifting the rest of the string, terminator included, one place left
      (strlen is recomputed at every test of both loops); any other character is
      stepped over. The string becomes its text without brackets; the places it gave
      up, up to the old terminator, hold NULs, and the array after that is untouched. */
  method RemoveBrackets(str: array<char>)
    requires '\0' in str[..]
    modifies str
    ensures var n := CLength(old(str[..]));
      var kept := WithoutBrackets(old(str[..n]));
      && str[..|kept|] == kept
      && (forall k :: |kept| <= k <= n ==> str[k] == '\0')
      && (forall k :: n < k < str.Length ==> str[k] == old(str[k]))
  {
    ghost var n0 := CLength(str[..]);
    ghost var text := str[..n0];
    ghost var n: nat := n0;
    var i: nat := 0;
    while i < CLength(str[..])
      invariant Removing(str[..], old(str[..]), i, n)
      decreases n - i
    {
      i, n := RemoveStep(str, old(str[..]), i, n);
    }
    AllRemoved(str[..], old(str[..]), i, n);
  }

  /** One turn of remove_brackets's outer loop: a bracket at `i` is shifted out,
      anything else is stepped over. */
  method RemoveStep(str: array<char>, ghost o: seq<char>, i: nat, ghost n: nat) returns (next: nat, ghost m: nat)
    requires '\0' in o && Removing(str[..], o, i, n) && i < n
    modifies str
    ensures Removing(str[..], o, next, m) && m - next < n - i
  {
    if str[i] == '[' || str[i] == ']' {
      ghost var before := str[..];
      ShiftLeft(str, i);
      BracketRemoved(before, str[..], o, i, n);
      next, m := i, n - 1;
    } else {
      CharKept(str[..], o, i, n);
      next, m := i + 1, n;
    }
  }

  /** When the outer loop stops, the string is the text without brackets. */
  lemma AllRemoved(s: seq<char>, o: seq<char>, i: nat, n: nat)
    requires '\0' in o && Removing(s, o, i, n) && i >= n
    ensures var n0 := CLength(o);
      var kept := WithoutBrackets(o[..n0]);
      && |kept| == n <= n0 < |s|
      && s[..|kept|] == kept
      && (forall k :: |kept| <= k <= n0 ==> s[k] == '\0')
      && (forall k :: n0 < k < |s| ==> s[k] == o[k])
  {
    assert s[i..n] == [];
  }

  /** The state of remove_brackets's outer loop over the array `s`, which held `o`:
      the string is `n` long, the first `i` characters are final, what is left to
      do gives the text of `o` without brackets, the places given up hold NULs and
      the array after the old terminator is untouched. */
  ghost predicate Removing(s: seq<char>, o: seq<char>, i: nat, n: nat)
    requires '\0' in o
  {
    && |s| == |o| && n == CLength(s) && n <= CLength(o) < |s| && i <= n
    && s[..i] + WithoutBrackets(s[i..n]) == WithoutBrackets(o[..CLength(o)])
    && (forall k :: n <= k <= CLength(o) ==> s[k] == '\0')
    && (forall k :: CLength(o) < k < |s| ==> s[k] == o[k])
  }

  /** A bracket at `i` shifted out: one character less to do, nothing else changes. */
  lemma BracketRemoved(before: seq<char>, after: seq<char>, o: seq<char>, i: nat, n: nat)
    requires '\0' in o && Removing(before, o, i, n) && i < n && IsBracket(before[i])
    requires ShiftedLeft(before, after, i)
    ensures Removing(after, o, i, n - 1)
  {
    Shifted(before, after, i, n);
  }

  /** A character other than a bracket at `i` is stepped over. */
  lemma CharKept(s: seq<char>, o: seq<char>, i: nat, n: nat)
    requires '\0' in o && Removing(s, o, i, n) && i < n && !IsBracket(s[i])
    ensures Removing(s, o, i + 1, n)
  {
    KeepChar(s, i, n);
  }

  /** `after` is `before`, a string with more than `i` characters, with the
      characters after index `i`, terminator included, moved one place left. */
  ghost predicate ShiftedLeft(before: seq<char>, after: seq<char>, i: nat)
    requires '\0' in before && i < CLength(before)
  {
    var n := CLength(before);
    && |after| == |before| && CLength(after) == n - 1
    && (forall k :: 0 <= k < i ==> after[k] == before[k])
    && (forall k :: i <= k < n ==> after[k] == before[k + 1])
    && (forall k :: n <= k < |after| ==> after[k] == before[k])
  }

  /** The inner loop of remove_brackets: `for (j = i; j < strlen(str); j++) str[j] = str[j + 1];`
      moves the string after index `i`, terminator included, one place left. */
  method ShiftLeft(str: array<char>, i: nat)
    requires '\0' in str[..] && i < CLength(str[..])
    modifies str
    ensures ShiftedLeft(old(str[..]), str[..], i)
  {
    ghost var n := CLength(str[..]);
    var j := i;
    while j < CLength(str[..])
      invariant i <= j <= n
      invariant forall k :: 0 <= k < i ==> str[k] == old(str[k])
      invariant forall k :: i <= k < j ==> str[k] == old(str[k + 1])
      invariant forall k :: j <= k < str.Length ==> str[k] == old(str[k])
      invariant CLength(str[..]) == if j == n then n - 1 else n
      decreases n - j
    {
      str[j] := str[j + 1];
      j := j + 1;
      if j == n {
        CLengthIs(str[..], n - 1);
      } else {
        CLengthIs(str[..], n);
      }
    }
  }

  // ------------------------------------------------------------------
  // truncate_name

  /** truncate_name as written: the first `targetWidth` characters are copied into a
      local array and the function's own copy of the pointer is pointed at it, which
      the caller never sees; the name keeps its full length. The method has no
      `modifies name` clause, and that absence is what models `name = arr`: the
      body writes only the local `arr`, so the caller's array is framed unchanged.
      The loop invariant records what the discarded local copy holds. */
  method TruncateName(name: array<char>, targetWidth: int)
    requires 0 < targetWidth <= name.Length
    ensures name[..] == old(name[..])
  {
    var arr := new char[targetWidth];
    for i := 0 to targetWidth
      invariant arr[..i] == name[..i]
    {
      arr[i] := name[i];
    }
    // `name = arr;` only rebinds the parameter.
  }

  /** What truncate_name is evidently meant to do: keep at most `width` characters. */
  function Truncate(name: string, width: nat): (r: string)
    ensures r <= name && |r| <= width
    ensures |name| <= width ==> r == name
    ensures width <= |name| ==> |r| == width
  {
    if |name| <= width then name else name[..width]
  }

  /** A C string longer than the width, passed to truncate_name as written: its
      length afterwards, still above the width, while the intended truncation of
      the same text is exactly `width` long. */
  method TruncateNameKeepsLongNames(name: array<char>, width: nat) returns (len: nat)
    requires 0 < width < CLength(name[..]) && '\0' in name[..]
    ensures len == CLength(name[..]) && len > width
    ensures |Truncate(name[..len], width)| == width < len
  {
    TruncateName(name, width);
    len := CLength(name[..]);
  }

  // ------------------------------------------------------------------
  // strsep with the delimiter " "

  /** `strsep(&rest, " ")`: a NULL rest gives NULL; otherwise the token runs up to the
      first space, which is cut out, and the rest continues after it, or becomes NULL
      when there is no space. */
  function Strsep(rest: Option<string>): (r: (Option<string>, Option<string>))
    ensures rest.None? <==> r.0.None?
    ensures r.0.Some? ==> ' ' !in r.0.value
    ensures r.1.Some? ==> rest.Some? && rest.value == r.0.value + " " + r.1.value
    ensures rest.Some? && r.1.None? ==> r.0 == rest
    ensures r.1.Some? ==> |r.1.value| < |rest.value|
  {
    match rest
    case None => (None, None)
    case Some(s) =>
      var p := IndexOf(s, ' ');
      if p == |s| then (Some(s), None)
      else (Some(s[..p]), Some(s[p + 1..]))
  }

  /** The tokens repeated strsep calls on `s` return before they return NULL. */
  function Split(s: string): (tokens: seq<string>)
    ensures |tokens| > 0
    decreases |s|
  {
    match Strsep(Some(s))
    case (token, None) => [token.value]
    case (token, Some(rest)) => [token.value] + Split(rest)
  }

  /** The tokens joined with single spaces. */
  function JoinSpaces(tokens: seq<string>): string {
    if tokens == [] then ""
    else if |tokens| == 1 then tokens[0]
    else tokens[0] + " " + JoinSpaces(tokens[1..])
  }

  /** Splitting loses nothing: the tokens joined back with spaces are the text. */
  lemma {:induction false} JoinSplit(s: string)
    ensures JoinSpaces(Split(s)) == s
    decreases |s|
  {
    match Strsep(Some(s))
    case (token, None) =>
    case (token, Some(rest)) =>
      JoinSplit(rest);
      assert Split(s)[1..] == Split(rest);
  }

  /** No token holds a space. */
  lemma {:induction false} SplitTokensHaveNoSpace(s: string)
    ensures forall i :: 0 <= i < |Split(s)| ==> ' ' !in Split(s)[i]
    decreases |s|
  {
    match Strsep(Some(s))
    case (token, None) =>
    case (token, Some(rest)) =>
      SplitTokensHaveNoSpace(rest);
      assert Split(s) == [token.value] + Split(rest);
  }

  /** Every space separates two tokens, empty ones included: there is one token more
      than there are spaces. */
  lemma {:induction false} SplitCount(s: string)
    ensures |Split(s)| == multiset(s)[' '] + 1
    decreases |s|
  {
    match Strsep(Some(s))
    case (token, None) =>
      assert ' ' !in s;
    case (token, Some(rest)) =>
      SplitCount(rest);
      SpaceCount(token.value, rest);
  }

  lemma SpaceCount(token: string, rest: string)
    requires ' ' !in token
    ensures multiset(token + " " + rest)[' '] == multiset(rest)[' '] + 1
  {
    assert multiset(token + " " + rest) == multiset(token) + multiset(" ") + multiset(rest);
  }

  /** Tokens without spaces come back from splitting what they were joined into. */
  lemma {:induction false} SplitJoin(tokens: seq<string>)
    requires |tokens| > 0 && forall i :: 0 <= i < |tokens| ==> ' ' !in tokens[i]
    ensures Split(JoinSpaces(tokens)) == tokens
  {
    var t := tokens[0];
    assert ' ' !in t;
    if |tokens| == 1 {
      FirstSpace(t, "");
    } else {
      var rest := JoinSpaces(tokens[1..]);
      assert JoinSpaces(tokens) == t + " " + rest;
      FirstSpace(t, rest);
      SplitJoin(tokens[1..]);
    }
  }

  /** A token without spaces ends at the first space after it, or at the end. */
  lemma FirstSpace(t: string, rest: string)
    requires ' ' !in t
    ensures IndexOf(t, ' ') == |t|
    ensures var s := t + " " + rest;
      IndexOf(s, ' ') == |t| && s[..|t|] == t && s[|t| + 1..] == rest
  {
    var s := t + " " + rest;
    forall k | 0 <= k < |t| ensures s[k] != ' ' && t[k] != ' ' {
      assert s[k] == t[k] && t[k] in t;
    }
    assert s[|t|] == ' ';
  }
}
