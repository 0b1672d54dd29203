/** String rewriting: the replacement overloads and splitting at delimiters. */
module Strings {
  import opened Wrappers

  const SIZES: nat := 0x1_0000_0000_0000_0000

  // ---------- Searching ----------

  predicate At(s: string, f: string, i: nat) {
    i + |f| <= |s| && s[i..i + |f|] == f
  }

  /** std::string::find: the first occurrence of f at or after k. */
  function Find(s: string, f: string, k: nat): (r: Option<nat>)
    ensures r.Some? ==> k <= r.value && At(s, f, r.value) && forall j: nat | k <= j < r.value :: !At(s, f, j)
    ensures r.None? ==> forall j: nat | k <= j :: !At(s, f, j)
    decreases |s| - k
  {
    if k > |s| then None else if At(s, f, k) then Some(k) else Find(s, f, k + 1)
  }

  // ---------- Substitution ----------

  /** Leftmost, non-overlapping substitution of r for f. */
  function Subst(s: string, f: string, r: string): string
    requires f != ""
  {
    if s == "" then ""
    else if At(s, f, 0) then r + Subst(s[|f|..], f, r)
    else [s[0]] + Subst(s[1..], f, r)
  }

  lemma {:induction false} SubstAfter(s: string, f: string, r: string, i: nat)
    requires f != "" && i <= |s| && forall j: nat | j < i :: !At(s, f, j)
    ensures Subst(s, f, r) == s[..i] + Subst(s[i..], f, r)
    decreases i
  {
    if i == 0 {
      assert s[0..] == s;
    } else {
      assert !At(s, f, 0);
      forall j: nat | j < i - 1
        ensures !At(s[1..], f, j)
      {
        Shifted(s, f, 1, j);
      }
      SubstAfter(s[1..], f, r, i - 1);
      assert s[1..][i - 1..] == s[i..] && [s[0]] + s[1..][..i - 1] == s[..i];
      assert Subst(s, f, r) == [s[0]] + Subst(s[1..], f, r);
    }
  }

  lemma Shifted(s: string, f: string, p: nat, j: nat)
    requires p <= |s|
    ensures At(s[p..], f, j) <==> At(s, f, p + j)
  {
    if p + j + |f| <= |s| {
      assert s[p..][j..j + |f|] == s[p + j..p + j + |f|];
    }
  }

  lemma SubstHere(t: string, f: string, r: string)
    requires f != "" && At(t, f, 0)
    ensures Subst(t, f, r) == r + Subst(t[|f|..], f, r)
  {
  }

  lemma AtFits(s: string, f: string, i: nat)
    requires At(s, f, i)
    ensures i + |f| <= |s|
  {
  }

  /** Up to the first occurrence, the occurrence, and the rest. */
  lemma SubstFirst(s: string, f: string, r: string, i: nat)
    requires f != "" && At(s, f, i) && forall j: nat | j < i :: !At(s, f, j)
    ensures Subst(s, f, r) == s[..i] + r + Subst(s[i + |f|..], f, r)
  {
    hide At, Subst;
    AtFits(s, f, i);
    SubstAfter(s, f, r, i);
    Shifted(s, f, i, 0);
    SubstHere(s[i..], f, r);
    assert s[i..][|f|..] == s[i + |f|..];
  }

  lemma SubstNone(s: string, f: string, r: string)
    requires f != "" && forall j: nat :: !At(s, f, j)
    ensures Subst(s, f, r) == s
  {
    SubstAfter(s, f, r, |s|);
    assert s[..|s|] == s && s[|s|..] == "";
  }

  /** The state of every replacement loop: the text before p is final, the rest
      is not yet rewritten. */
  ghost predicate Rewriting(original: string, f: string, r: string, str: string, p: nat) {
    f != "" && p <= |str| && Subst(original, f, r) == str[..p] + Subst(str[p..], f, r)
  }

  lemma RewriteStarts(s: string, f: string, r: string)
    requires f != ""
    ensures Rewriting(s, f, r, s, 0)
  {
    assert s[0..] == s;
  }

  lemma FoundInRest(f: string, str: string, p: nat, i: nat)
    requires p <= |str| && Find(str, f, p) == Some(i)
    ensures p <= i && i + |f| <= |str| && At(str[p..], f, i - p)
    ensures forall j: nat | j < i - p :: !At(str[p..], f, j)
  {
    Shifted(str, f, p, i - p);
    forall j: nat | j < i - p
      ensures !At(str[p..], f, j)
    {
      Shifted(str, f, p, j);
    }
  }

  lemma FirstInRest(f: string, r: string, str: string, p: nat, i: nat)
    requires f != "" && p <= |str| && Find(str, f, p) == Some(i)
    ensures p <= i && i + |f| <= |str|
    ensures Subst(str[p..], f, r) == str[p..][..i - p] + r + Subst(str[i + |f|..], f, r)
  {
    hide Subst, Find, At;
    FoundInRest(f, str, p, i);
    SubstFirst(str[p..], f, r, i - p);
    assert str[p..][i - p + |f|..] == str[i + |f|..];
  }

  lemma RewriteStep(original: string, f: string, r: string, str: string, p: nat, i: nat)
    requires Rewriting(original, f, r, str, p) && Find(str, f, p) == Some(i)
    ensures p <= i && i + |f| <= |str|
    ensures Rewriting(original, f, r, str[..i] + r + str[i + |f|..], i + |r|)
  {
    hide Subst, At, Find;
    FirstInRest(f, r, str, p, i);
    assert str[..p] + str[p..][..i - p] == str[..i];
    Reassociate(str[..p], str[p..][..i - p], r, Subst(str[i + |f|..], f, r));
    Cut(str[..i] + r, str[i + |f|..]);
  }

  lemma Reassociate(a: string, b: string, c: string, d: string)
    ensures a + (b + c + d) == (a + b) + c + d
  {
  }

  lemma Cut(a: string, b: string)
    ensures (a + b)[..|a|] == a && (a + b)[|a|..] == b
  {
  }

  lemma RewriteEnds(original: string, f: string, r: string, str: string, p: nat)
    requires Rewriting(original, f, r, str, p) && Find(str, f, p) == None
    ensures str == Subst(original, f, r)
  {
    forall j: nat
      ensures !At(str[p..], f, j)
    {
      Shifted(str, f, p, j);
    }
    SubstNone(str[p..], f, r);
    assert str[..p] + str[p..] == str;
  }

  /** replace for a string: also when the replacement contains the text sought. */
  method Replace(str1: string, find: string, replaceWith: string) returns (str: string)
    requires find != ""
    ensures str == Subst(str1, find, replaceWith)
  {
    hide Subst, Find, Rewriting, At;
    str := str1;
    ghost var p := 0;
    RewriteStarts(str1, find, replaceWith);
    var index := Find(str, find, 0);
    while index.Some?
      invariant 0 <= p <= |str| && Rewriting(str1, find, replaceWith, str, p) && index == Find(str, find, p)
      decreases |str| - p, if index.Some? then 1 else 0
    {
      var i := index.value;
      RewriteStep(str1, find, replaceWith, str, p, i);
      str := str[..i] + replaceWith + str[i + |find|..];
      p := i + |replaceWith|;
      index := Find(str, find, i + |replaceWith|);
      RewriteBounds(str1, find, replaceWith, str, p);
    }
    RewriteEnds(str1, find, replaceWith, str, p);
  }

  lemma RewriteBounds(original: string, f: string, r: string, str: string, p: nat)
    requires Rewriting(original, f, r, str, p)
    ensures p <= |str|
  {
  }

  /** replace of a character by a string. */
  method ReplaceChar(str1: string, find: char, replaceWith: string) returns (str: string)
    ensures str == Subst(str1, [find], replaceWith)
  {
    hide Subst, Find, Rewriting, At;
    str := str1;
    ghost var p := 0;
    RewriteStarts(str1, [find], replaceWith);
    var index := Find(str, [find], 0);
    while index.Some?
      invariant 0 <= p <= |str| && Rewriting(str1, [find], replaceWith, str, p) && index == Find(str, [find], p)
      decreases |str| - p, if index.Some? then 1 else 0
    {
      var i := index.value;
      RewriteStep(str1, [find], replaceWith, str, p, i);
      str := str[..i] + replaceWith + str[i + 1..];
      p := i + |replaceWith|;
      index := Find(str, [find], i + |replaceWith|);
      RewriteBounds(str1, [find], replaceWith, str, p);
    }
    RewriteEnds(str1, [find], replaceWith, str, p);
  }

  /** replace of a character by a character, in place. */
  method ReplaceCharByChar(str1: string, find: char, replaceWith: char) returns (str: string)
    ensures str == Subst(str1, [find], [replaceWith])
    ensures |str| == |str1|
    ensures forall i | 0 <= i < |str| :: str[i] == if str1[i] == find then replaceWith else str1[i]
  {
    hide Subst, Find, Rewriting, At;
    str := str1;
    ghost var p := 0;
    RewriteStarts(str1, [find], [replaceWith]);
    var index := Find(str, [find], 0);
    while index.Some?
      invariant 0 <= p <= |str| && Rewriting(str1, [find], [replaceWith], str, p) && index == Find(str, [find], p)
      invariant |str| == |str1|
      invariant forall i | 0 <= i < p :: str[i] == if str1[i] == find then replaceWith else str1[i]
      invariant str[p..] == str1[p..]
      decreases |str| - p, if index.Some? then 1 else 0
    {
      var i := index.value;
      RewriteStep(str1, [find], [replaceWith], str, p, i);
      FindSkips(str, find, p);
      assert str[..i] + [replaceWith] + str[i + 1..] == str[i := replaceWith];
      assert forall k | p <= k < |str| :: str[k] == str[p..][k - p] == str1[p..][k - p] == str1[k];
      str := str[i := replaceWith];
      p := i + 1;
      index := Find(str, [find], i + 1);
    }
    FindSkips(str, find, p);
    assert forall k | p <= k < |str| :: str[k] == str[p..][k - p] == str1[p..][k - p] == str1[k];
    RewriteEnds(str1, [find], [replaceWith], str, p);
  }

  lemma FindSkips(s: string, c: char, p: nat)
    requires p <= |s|
    ensures var r := Find(s, [c], p);
            forall k | p <= k < (if r.Some? then r.value else |s|) :: s[k] != c
    ensures Find(s, [c], p).Some? ==> Find(s, [c], p).value < |s| && s[Find(s, [c], p).value] == c
  {
    var r := Find(s, [c], p);
    forall k | p <= k < (if r.Some? then r.value else |s|)
      ensures s[k] != c
    {
      assert s[k..k + 1] == [s[k]];
      assert !At(s, [c], k);
    }
    if r.Some? {
      assert s[r.value..r.value + 1] == [s[r.value]];
    }
  }

  // ---------- Splitting ----------

  predicate IsDelim(c: char, delims: string) {
    c in delims
  }

  /** std::string::find and find_first_of: the first delimiter at or after k. */
  function FindAny(s: string, delims: string, k: nat): (r: Option<nat>)
    requires k <= |s|
    ensures r.Some? ==> k <= r.value < |s| && IsDelim(s[r.value], delims)
    ensures forall j | k <= j < (if r.Some? then r.value else |s|) :: !IsDelim(s[j], delims)
    decreases |s| - k
  {
    if k == |s| then None else if IsDelim(s[k], delims) then Some(k) else FindAny(s, delims, k + 1)
  }

  /** The pieces of s, cut at its first `cuts` delimiters. */
  function Pieces(s: string, delims: string, cuts: nat): seq<string> {
    var i := FindAny(s, delims, 0);
    if cuts == 0 || i.None? then [s] else [s[..i.value]] + Pieces(s[i.value + 1..], delims, cuts - 1)
  }

  /** The cuts that `max` allows: a maximum of 0 or 1 wraps around in
      `--max == 1` and allows all of them. */
  function Cuts(max: nat): nat {
    if max >= 2 then max - 1 else SIZES + max - 1
  }

  function Occurrences(s: string, delims: string): nat {
    if s == "" then 0 else (if IsDelim(s[0], delims) then 1 else 0) + Occurrences(s[1..], delims)
  }

  function Join(pieces: seq<string>, r: string): string {
    if pieces == [] then ""
    else if |pieces| == 1 then pieces[0]
    else pieces[0] + r + Join(pieces[1..], r)
  }

  lemma JoinStep(p: string, rest: seq<string>, r: string)
    requires rest != []
    ensures Join([p] + rest, r) == p + r + Join(rest, r)
  {
    assert ([p] + rest)[1..] == rest;
  }

  /** What split returns. */
  function SplitOf(s: string, delims: string, max: nat): seq<string> {
    if s == "" then [] else Pieces(s, delims, Cuts(max))
  }

  lemma {:induction false} OccurrencesAfter(s: string, delims: string, i: nat)
    requires i <= |s| && forall j | 0 <= j < i :: !IsDelim(s[j], delims)
    ensures Occurrences(s, delims) == Occurrences(s[i..], delims)
  {
    if i == 0 {
      assert s[0..] == s;
    } else {
      OccurrencesAfter(s[1..], delims, i - 1);
      assert s[1..][i - 1..] == s[i..];
    }
  }

  lemma OccurrencesFirst(s: string, delims: string)
    ensures var i := FindAny(s, delims, 0);
            Occurrences(s, delims) == if i.None? then 0 else 1 + Occurrences(s[i.value + 1..], delims)
  {
    var i := FindAny(s, delims, 0);
    var n := if i.None? then |s| else i.value;
    OccurrencesAfter(s, delims, n);
    if i.Some? {
      assert s[n..][1..] == s[n + 1..];
    }
  }

  function Min(a: nat, b: nat): nat {
    if a < b then a else b
  }

  lemma {:induction false} PiecesCount(s: string, delims: string, cuts: nat)
    ensures |Pieces(s, delims, cuts)| == Min(cuts, Occurrences(s, delims)) + 1
    decreases cuts
  {
    hide FindAny, Occurrences;
    OccurrencesFirst(s, delims);
    var i := FindAny(s, delims, 0);
    if cuts > 0 && i.Some? {
      PiecesCount(s[i.value + 1..], delims, cuts - 1);
    }
  }

  lemma {:induction false} PiecesJoin(s: string, d: char, cuts: nat)
    ensures Join(Pieces(s, [d], cuts), [d]) == s
    decreases cuts
  {
    hide FindAny, Occurrences;
    assert Join([s], [d]) == s;
    hide Join;
    var i := FindAny(s, [d], 0);
    if cuts > 0 && i.Some? {
      var head, tail := s[..i.value], s[i.value + 1..];
      var rest := Pieces(tail, [d], cuts - 1);
      assert Pieces(s, [d], cuts) == [head] + rest && s[i.value] == d;
      PiecesJoin(tail, d, cuts - 1);
      PiecesCount(tail, [d], cuts - 1);
      hide Pieces;
      JoinStep(head, rest, [d]);
      assert head + [d] + tail == s;
    }
  }

  /** No piece but the last contains a delimiter, and the last one only when the
      cuts were used up. */
  lemma {:induction false} PiecesAreClean(s: string, delims: string, cuts: nat)
    ensures var p := Pieces(s, delims, cuts);
            forall k | 0 <= k < |p| && (k < |p| - 1 || Occurrences(s, delims) <= cuts) :: Occurrences(p[k], delims) == 0
    decreases cuts
  {
    assert Occurrences("", delims) == 0;
    hide FindAny, Occurrences;
    OccurrencesFirst(s, delims);
    var i := FindAny(s, delims, 0);
    if cuts > 0 && i.Some? {
      var head, tail := s[..i.value], s[i.value + 1..];
      PiecesAreClean(tail, delims, cuts - 1);
      PiecesCount(tail, delims, cuts - 1);
      OccurrencesAfter(head, delims, |head|);
      assert head[|head|..] == "";
      var rest := Pieces(tail, delims, cuts - 1);
      assert Pieces(s, delims, cuts) == [head] + rest;
    }
  }

  /** With a maximum of at least two, split yields as many pieces as there are
      delimiters plus one, but no more than the maximum; with any maximum the
      pieces join back to the string, and only the last can hold a delimiter. */
  lemma SplitIsExact(s: string, d: char, max: nat)
    requires |s| < SIZES
    ensures s == "" <==> SplitOf(s, [d], max) == []
    ensures s != "" && max >= 2 ==> |SplitOf(s, [d], max)| == Min(max, Occurrences(s, [d]) + 1)
    ensures s != "" && max < 2 ==> |SplitOf(s, [d], max)| == Occurrences(s, [d]) + 1
    ensures Join(SplitOf(s, [d], max), [d]) == s
    ensures var p := SplitOf(s, [d], max); forall k | 0 <= k < |p| - 1 :: Occurrences(p[k], [d]) == 0
  {
    PiecesAreClean(s, [d], Cuts(max));
    PiecesCount(s, [d], Cuts(max));
    PiecesJoin(s, d, Cuts(max));
    OccurrencesBound(s, [d]);
  }

  lemma {:induction false} OccurrencesBound(s: string, delims: string)
    ensures Occurrences(s, delims) <= |s|
  {
    if s != "" {
      OccurrencesBound(s[1..], delims);
    }
  }

  // ---------- What splitting takes apart ----------

  /** The pieces with the separators between them. */
  function Weave(pieces: seq<string>, separators: string): string
    requires |pieces| == |separators| + 1
  {
    if separators == "" then pieces[0]
    else pieces[0] + [separators[0]] + Weave(pieces[1..], separators[1..])
  }

  predicate AllDelims(s: string, delims: string) {
    forall k | 0 <= k < |s| :: s[k] in delims
  }

  lemma WeaveStep(head: string, c: char, rest: seq<string>, separators: string)
    requires |rest| == |separators| + 1
    ensures Weave([head] + rest, [c] + separators) == head + [c] + Weave(rest, separators)
  {
    assert ([head] + rest)[1..] == rest && ([c] + separators)[1..] == separators;
  }

  lemma {:induction false} PiecesWeave(s: string, delims: string, cuts: nat) returns (separators: string)
    ensures |Pieces(s, delims, cuts)| == |separators| + 1 && AllDelims(separators, delims)
    ensures Weave(Pieces(s, delims, cuts), separators) == s
    decreases cuts
  {
    hide FindAny;
    var i := FindAny(s, delims, 0);
    separators := "";
    if cuts > 0 && i.Some? {
      var head, c, tail := s[..i.value], s[i.value], s[i.value + 1..];
      separators := PiecesWeave(tail, delims, cuts - 1);
      WeaveStep(head, c, Pieces(tail, delims, cuts - 1), separators);
      separators := [c] + separators;
      assert head + [c] + tail == s;
    }
  }

  lemma {:induction false} CleanHasNone(s: string, delims: string)
    requires Occurrences(s, delims) == 0
    ensures forall j | 0 <= j < |s| :: !IsDelim(s[j], delims)
  {
    if s != "" {
      CleanHasNone(s[1..], delims);
      forall j | 0 <= j < |s|
        ensures !IsDelim(s[j], delims)
      {
        assert j > 0 ==> s[j] == s[1..][j - 1];
      }
    }
  }

  ghost predicate CleanButLast(pieces: seq<string>, delims: string) {
    forall k | 0 <= k < |pieces| - 1 :: Occurrences(pieces[k], delims) == 0
  }

  /** Only these pieces can be woven into s with delimiters between them, if no
      piece but the last holds one. */
  lemma {:induction false} WeaveUnique(pieces: seq<string>, separators: string, delims: string)
    requires |pieces| == |separators| + 1 && AllDelims(separators, delims) && CleanButLast(pieces, delims)
    ensures Pieces(Weave(pieces, separators), delims, |separators|) == pieces
    decreases |separators|
  {
    hide Occurrences, FindAny;
    if separators != "" {
      var head, tail := pieces[0], Weave(pieces[1..], separators[1..]);
      WeaveUnique(pieces[1..], separators[1..], delims);
      CleanHasNone(head, delims);
      PiecesFirst(head, separators[0], tail, delims, |separators|);
      assert [head] + pieces[1..] == pieces;
    }
  }

  lemma PiecesFirst(head: string, c: char, tail: string, delims: string, cuts: nat)
    requires cuts > 0 && IsDelim(c, delims) && forall j | 0 <= j < |head| :: !IsDelim(head[j], delims)
    ensures Pieces(head + [c] + tail, delims, cuts) == [head] + Pieces(tail, delims, cuts - 1)
  {
    hide FindAny;
    var s := head + [c] + tail;
    FirstIs(s, delims, |head|);
    assert s[..|head|] == head && s[|head| + 1..] == tail;
  }

  lemma FirstIs(s: string, delims: string, n: nat)
    requires n < |s| && IsDelim(s[n], delims) && forall j | 0 <= j < n :: !IsDelim(s[j], delims)
    ensures FindAny(s, delims, 0) == Some(n)
  {
    var i := FindAny(s, delims, 0);
    assert i.Some? && i.value >= n && i.value <= n;
  }

  lemma {:induction false} SpareCuts(s: string, delims: string, cuts: nat)
    ensures Pieces(s, delims, cuts) == Pieces(s, delims, Min(cuts, Occurrences(s, delims)))
    decreases cuts
  {
    hide FindAny, Occurrences;
    OccurrencesFirst(s, delims);
    var i := FindAny(s, delims, 0);
    if cuts > 0 && i.Some? {
      SpareCuts(s[i.value + 1..], delims, cuts - 1);
    }
  }

  /** With any set of delimiters and any maximum: p is what split returns if and only
      if it has the right number of pieces, delimiters between the pieces rebuild the
      string, and no piece but the last holds one. */
  lemma SplitRebuilds(s: string, delims: string, max: nat, p: seq<string>)
    requires s != "" && |s| < SIZES
    ensures p == SplitOf(s, delims, max) <==>
      && |p| == (if max >= 2 then Min(max, Occurrences(s, delims) + 1) else Occurrences(s, delims) + 1)
      && CleanButLast(p, delims)
      && exists separators ::
           |p| == |separators| + 1 && AllDelims(separators, delims) && Weave(p, separators) == s
  {
    OccurrencesBound(s, delims);
    PiecesCount(s, delims, Cuts(max));
    PiecesAreClean(s, delims, Cuts(max));
    SpareCuts(s, delims, Cuts(max));
    var separators := PiecesWeave(s, delims, Cuts(max));
    hide Pieces, Occurrences, Weave;
    forall q | |p| == |q| + 1 && AllDelims(q, delims) && Weave(p, q) == s && CleanButLast(p, delims)
      ensures Pieces(s, delims, |q|) == p
    {
      WeaveUnique(p, q, delims);
    }
  }

  // ---------- Replacement and splitting ----------

  lemma CharAt(s: string, c: char, i: nat)
    ensures At(s, [c], i) <==> i < |s| && s[i] == c
  {
    if i < |s| {
      assert s[i..i + 1] == [s[i]];
    }
  }

  lemma {:induction false} SubstByItself(s: string, c: char)
    ensures Subst(s, [c], [c]) == s
  {
    if s != "" {
      CharAt(s, c, 0);
      SubstByItself(s[1..], c);
    }
  }

  /** A replacement that keeps at least one character keeps or grows the length,
      and the empty one shortens it by every occurrence. */
  lemma {:induction false} SubstLength(s: string, c: char, r: string)
    ensures r == "" ==> |Subst(s, [c], r)| == |s| - Occurrences(s, [c])
    ensures |r| >= 1 ==> |Subst(s, [c], r)| >= |s|
    ensures |r| >= 2 && Occurrences(s, [c]) > 0 ==> |Subst(s, [c], r)| > |s|
  {
    if s != "" {
      CharAt(s, c, 0);
      SubstLength(s[1..], c, r);
    }
  }

  /** Only replacing a character by itself leaves a string that holds it alone. */
  lemma SubstChanges(s: string, c: char, r: string)
    ensures Subst(s, [c], r) == s <==> Occurrences(s, [c]) == 0 || r == [c]
  {
    SubstByItself(s, c);
    SubstLength(s, c, r);
    FirstChar(s, c);
    OccurrencesFirst(s, [c]);
    var i := FindAny(s, [c], 0);
    if i.None? {
      SubstNone(s, [c], r);
    } else if |r| == 1 && Subst(s, [c], r) == s {
      SubstFirst(s, [c], r, i.value);
      hide Subst, FindAny, Occurrences, At;
      assert s[i.value] == c && s[i.value] == r[0];
    }
  }

  lemma FirstChar(s: string, c: char)
    ensures var i := FindAny(s, [c], 0);
            && (i.Some? ==> At(s, [c], i.value))
            && (forall j: nat | j < (if i.Some? then i.value else |s|) :: !At(s, [c], j))
            && (i.None? ==> forall j: nat :: !At(s, [c], j))
  {
    var i := FindAny(s, [c], 0);
    forall j: nat
      ensures j < (if i.Some? then i.value else |s|) ==> !At(s, [c], j)
      ensures j >= |s| ==> !At(s, [c], j)
    {
      CharAt(s, c, j);
      assert j < (if i.Some? then i.value else |s|) ==> !IsDelim(s[j], [c]);
    }
    if i.Some? {
      CharAt(s, c, i.value);
    }
  }

  lemma SamePrefix(p: string, a: string, b: string)
    ensures p + a == p + b <==> a == b
  {
    if p + a == p + b {
      assert (p + a)[|p|..] == a && (p + b)[|p|..] == b;
    }
  }

  /** Replacing a character is joining the pieces between its occurrences with the
      replacement, exactly when every occurrence is cut or the character replaces
      itself. */
  lemma {:induction false} SubstIsJoinExactly(s: string, c: char, r: string, cuts: nat)
    ensures Subst(s, [c], r) == Join(Pieces(s, [c], cuts), r) <==> Occurrences(s, [c]) <= cuts || r == [c]
    decreases cuts
  {
    hide FindAny, Occurrences, At, Subst;
    var i := FindAny(s, [c], 0);
    OccurrencesFirst(s, [c]);
    FirstChar(s, c);
    SubstChanges(s, c, r);
    assert Join([s], r) == s;
    hide Join;
    if cuts > 0 && i.Some? {
      SubstFirst(s, [c], r, i.value);
      var head, tail := s[..i.value], s[i.value + 1..];
      SubstIsJoinExactly(tail, c, r, cuts - 1);
      PiecesCount(tail, [c], cuts - 1);
      var rest := Pieces(tail, [c], cuts - 1);
      assert Pieces(s, [c], cuts) == [head] + rest;
      hide Pieces;
      JoinStep(head, rest, r);
      SamePrefix(head + r, Subst(tail, [c], r), Join(rest, r));
    }
  }

  /** replace(s, c, r) equals joining split(s, c, max) with r if and only if the
      maximum leaves no occurrence uncut, or the character replaces itself. */
  lemma ReplaceIsJoinOfSplit(s: string, c: char, r: string, max: nat)
    requires |s| < SIZES
    ensures Subst(s, [c], r) == Join(SplitOf(s, [c], max), r)
       <==> max < 2 || Occurrences(s, [c]) < max || r == [c]
  {
    OccurrencesBound(s, [c]);
    if s != "" {
      SubstIsJoinExactly(s, c, r, Cuts(max));
    }
  }

  /** Both overloads of split, with the size_t arithmetic of `--max == 1`. */
  method Split(str: string, delims: string, maximum: nat) returns (result: seq<string>)
    requires |str| < SIZES - 1 && maximum < SIZES
    ensures result == SplitOf(str, delims, maximum)
  {
    hide FindAny, Pieces;
    result := [];
    if str == "" {
      return;
    }
    var max, last := maximum, 0;
    var pos := FindAny(str, delims, 0);
    ghost var cuts := Cuts(maximum);
    assert str[0..] == str && [] + Pieces(str, delims, cuts) == Pieces(str, delims, cuts);
    while pos.Some?
      invariant 0 <= last <= |str| && pos == FindAny(str, delims, last)
      invariant 0 <= max < SIZES && cuts > 0 && (max - 1) % SIZES == cuts % SIZES
      invariant cuts <= SIZES
      invariant result + Pieces(str[last..], delims, cuts) == SplitOf(str, delims, maximum)
      decreases |str| - last
    {
      var piece := str[last..pos.value];
      PiecesStep(str, delims, last, cuts);
      assert result + ([piece] + Pieces(str[pos.value + 1..], delims, cuts - 1))
          == (result + [piece]) + Pieces(str[pos.value + 1..], delims, cuts - 1);
      result := result + [piece];
      last := pos.value + 1;
      cuts := cuts - 1;
      max := (max - 1) % SIZES;
      if max == 1 {
        break;
      }
      pos := FindAny(str, delims, last);
    }
    PiecesLast(str, delims, last, cuts);
    result := result + [str[last..]];
  }

  lemma PiecesLast(s: string, delims: string, last: nat, cuts: nat)
    requires last <= |s| && (cuts == 0 || FindAny(s, delims, last).None?)
    ensures Pieces(s[last..], delims, cuts) == [s[last..]]
  {
    FindAnyShifts(s, delims, last);
  }

  lemma PiecesStep(s: string, delims: string, last: nat, cuts: nat)
    requires last <= |s| && FindAny(s, delims, last).Some? && cuts > 0
    ensures var i := FindAny(s, delims, last).value;
            Pieces(s[last..], delims, cuts) == [s[last..i]] + Pieces(s[i + 1..], delims, cuts - 1)
  {
    FindAnyShifts(s, delims, last);
    var i := FindAny(s, delims, last).value;
    assert s[last..][..i - last] == s[last..i] && s[last..][i - last + 1..] == s[i + 1..];
  }

  lemma FindAnyShifts(s: string, delims: string, last: nat)
    requires last <= |s|
    ensures FindAny(s[last..], delims, 0)
         == if FindAny(s, delims, last).Some? then Some(FindAny(s, delims, last).value - last) else None
  {
    var t := s[last..];
    var i, j := FindAny(s, delims, last), FindAny(t, delims, 0);
    hide FindAny, IsDelim;
    assert forall k | 0 <= k < |t| :: t[k] == s[last + k];
  }
}
