/** Python string operations used by the pipeline, over `seq<char>`:
    `str.lower`, whitespace as `str.isspace` and `re`'s `\s` understand it,
    substring search, `str.split(sep)`, `sep.join(parts)`, `str.replace`,
    `str.strip()` and `str.rstrip(chars)`. */
module Text {
  import opened Common

  /** `str.lower` on one character.  Only the ASCII letters are mapped; the
      Unicode case table is not part of this model. */
  function LowerChar(c: char): char
  {
    if 'A' <= c <= 'Z' then (c as int + 32) as char else c
  }

  function Lower(s: string): string
  {
    seq(|s|, i requires 0 <= i < |s| => LowerChar(s[i]))
  }

  /** The characters `str.isspace()` accepts, which are also those `\s`
      matches in a `str` pattern. */
  predicate IsSpace(c: char)
  {
    || c == ' ' || c == '\t' || c == '\n' || c == '\r'
    || c == '\U{000B}' || c == '\U{000C}'
    || ('\U{001C}' <= c <= '\U{001F}')
    || c == '\U{0085}' || c == '\U{00A0}' || c == '\U{1680}'
    || ('\U{2000}' <= c <= '\U{200A}')
    || c == '\U{2028}' || c == '\U{2029}' || c == '\U{202F}'
    || c == '\U{205F}' || c == '\U{3000}'
  }

  /** `pat` occurs in `s` starting at index `i`. */
  predicate OccursAt(s: string, pat: string, i: nat)
  {
    i + |pat| <= |s| && s[i..i + |pat|] == pat
  }

  /** `s.find(pat, k)`: the first index at or after `k` where `pat` occurs. */
  function FindFrom(s: string, pat: string, k: nat): (r: Option<nat>)
    requires k <= |s|
    ensures r.Some? ==> k <= r.value && OccursAt(s, pat, r.value)
    ensures r.Some? ==> forall j :: k <= j < r.value ==> !OccursAt(s, pat, j)
    ensures r.None? ==> forall j :: k <= j ==> !OccursAt(s, pat, j)
    decreases |s| - k
  {
    if k + |pat| > |s| then None
    else if s[k..k + |pat|] == pat then Some(k)
    else FindFrom(s, pat, k + 1)
  }

  function Find(s: string, pat: string): Option<nat>
  {
    FindFrom(s, pat, 0)
  }

  /** `pat in s`. */
  predicate Contains(s: string, pat: string)
  {
    Find(s, pat).Some?
  }

  lemma {:induction false} ContainsIff(s: string, pat: string)
    ensures Contains(s, pat) <==> exists j :: OccursAt(s, pat, j)
  {
  }

  /** `s.split(sep)`: the pieces between the leftmost non-overlapping
      occurrences of `sep`; a string without `sep` is one piece. */
  function Split(s: string, sep: string): (parts: seq<string>)
    requires |sep| > 0
    ensures |parts| >= 1
    decreases |s|
  {
    match Find(s, sep)
    case None => [s]
    case Some(k) => [s[..k]] + Split(s[k + |sep|..], sep)
  }

  /** `sep.join(parts)`. */
  function Join(parts: seq<string>, sep: string): string
  {
    if |parts| == 0 then ""
    else if |parts| == 1 then parts[0]
    else parts[0] + sep + Join(parts[1..], sep)
  }

  lemma {:induction false} JoinCons(head: string, tail: seq<string>, sep: string)
    requires |tail| >= 1
    ensures Join([head] + tail, sep) == head + sep + Join(tail, sep)
  {
    assert ([head] + tail)[1..] == tail;
  }

  /** `s.replace(pat, rep)`: every leftmost non-overlapping occurrence of
      `pat` replaced by `rep`; a removal when `rep` is empty. */
  function ReplaceAll(s: string, pat: string, rep: string): string
    requires |pat| > 0
  {
    Join(Split(s, pat), rep)
  }

  /** Joining the pieces of a split with the same separator gives back the
      original string. */
  lemma {:induction false} SplitJoin(s: string, sep: string)
    requires |sep| > 0
    ensures Join(Split(s, sep), sep) == s
    decreases |s|
  {
    match Find(s, sep)
    case None =>
      assert Split(s, sep) == [s];
    case Some(k) =>
      SplitJoin(s[k + |sep|..], sep);
      SplitJoinStep(s, sep, k);
  }

  /** The step of `SplitJoin` at the first occurrence `k`. */
  lemma {:induction false} SplitJoinStep(s: string, sep: string, k: nat)
    requires |sep| > 0 && Find(s, sep) == Some(k)
    requires Join(Split(s[k + |sep|..], sep), sep) == s[k + |sep|..]
    ensures Join(Split(s, sep), sep) == s
  {
    var rest := s[k + |sep|..];
    var tail := Split(rest, sep);
    assert Split(s, sep) == [s[..k]] + tail;
    JoinCons(s[..k], tail, sep);
    assert s[k..k + |sep|] == sep;
    SliceThree(s, k, k + |sep|);
  }

  lemma {:induction false} SliceThree(s: string, i: nat, j: nat)
    requires i <= j <= |s|
    ensures s == s[..i] + s[i..j] + s[j..]
  {
  }

  /** No piece of a split contains the separator. */
  lemma {:induction false} SplitPiecesFree(s: string, sep: string)
    requires |sep| > 0
    ensures forall p :: p in Split(s, sep) ==> !Contains(p, sep)
    decreases |s|
  {
    match Find(s, sep)
    case None =>
    case Some(k) =>
      var rest := s[k + |sep|..];
      SplitPiecesFree(rest, sep);
      var head := s[..k];
      forall j: nat | OccursAt(head, sep, j) ensures false {
        assert s[j..j + |sep|] == head[j..j + |sep|];
        assert OccursAt(s, sep, j);
      }
      assert Split(s, sep) == [head] + Split(rest, sep);
  }

  /** A string that does not contain the separator is its own only piece. */
  lemma {:induction false} SplitOfFree(s: string, sep: string)
    requires |sep| > 0 && !Contains(s, sep)
    ensures Split(s, sep) == [s]
  {
  }

  /** A string that contains the separator splits into at least two pieces. */
  lemma {:induction false} SplitOfContaining(s: string, sep: string)
    requires |sep| > 0 && Contains(s, sep)
    ensures |Split(s, sep)| >= 2
  {
    var k := Find(s, sep).value;
    assert Split(s, sep) == [s[..k]] + Split(s[k + |sep|..], sep);
  }

  /** Replacing a pattern that does not occur leaves the string unchanged. */
  lemma {:induction false} ReplaceAllAbsent(s: string, pat: string, rep: string)
    requires |pat| > 0 && !Contains(s, pat)
    ensures ReplaceAll(s, pat, rep) == s
  {
    SplitOfFree(s, pat);
  }

  /** `s.replace(pat, rep)` cuts `s` into pieces free of `pat` that re-join
      to `s` with `pat`, and re-joins the same pieces with `rep`. */
  lemma {:induction false} ReplaceAllCharacterized(s: string, pat: string, rep: string)
    requires |pat| > 0
    ensures var pieces := Split(s, pat);
      && s == Join(pieces, pat)
      && ReplaceAll(s, pat, rep) == Join(pieces, rep)
      && forall p :: p in pieces ==> !Contains(p, pat)
  {
    SplitJoin(s, pat);
    SplitPiecesFree(s, pat);
  }

  /** Removing a pattern that starts a string, and occurs nowhere else,
      leaves exactly the rest. */
  lemma {:induction false} RemoveLeading(pat: string, t: string)
    requires |pat| > 0 && !Contains(t, pat)
    ensures ReplaceAll(pat + t, pat, "") == t
  {
    var s := pat + t;
    assert s[0..|pat|] == pat;
    assert Find(s, pat) == Some(0);
    assert s[|pat|..] == t;
    SplitOfFree(t, pat);
    assert Split(s, pat) == [""] + [t];
    JoinCons("", [t], "");
  }

  /** Removing a pattern that ends a string leaves the stem, provided some
      character of the pattern is absent from the stem and the pattern's
      first character does not recur in it. */
  lemma {:induction false} RemoveTrailing(t: string, pat: string, c: char)
    requires |pat| > 0 && pat[0] !in pat[1..] && c in pat && c !in t
    ensures ReplaceAll(t + pat, pat, "") == t
  {
    var s := t + pat;
    assert s[|t|..|t| + |pat|] == pat;
    var i :| 0 <= i < |pat| && pat[i] == c;
    forall j: nat | j < |t| ensures !OccursAt(s, pat, j) {
      if j + |pat| <= |t| {
        assert s[j + i] == t[j + i] != pat[i];
        assert s[j..j + |pat|][i] != pat[i];
      } else if j + |pat| <= |s| {
        var o := |t| - j;
        assert pat[o] == pat[1..][o - 1];
        assert s[j + o] == pat[0] != pat[o];
        assert s[j..j + |pat|][o] != pat[o];
      }
    }
    assert Find(s, pat) == Some(|t|) by {
      FindFromSkips(s, pat, 0, |t|);
    }
    assert s[..|t|] == t && s[|t| + |pat|..] == [];
    assert Split([], pat) == [[]];
    assert Split(s, pat) == [t] + [[]];
    JoinCons(t, [[]], "");
  }

  lemma {:induction false} FindFromSkips(s: string, pat: string, k: nat, m: nat)
    requires k <= m <= |s| && OccursAt(s, pat, m)
    requires forall j: nat :: k <= j < m ==> !OccursAt(s, pat, j)
    ensures FindFrom(s, pat, k) == Some(m)
    decreases m - k
  {
    if k < m {
      assert !OccursAt(s, pat, k);
      FindFromSkips(s, pat, k + 1, m);
    }
  }

  /** The string with every `c` replaced by `d`, position by position. */
  function MapChar(s: string, c: char, d: char): string
  {
    seq(|s|, i requires 0 <= i < |s| => if s[i] == c then d else s[i])
  }

  /** Splitting at a first occurrence of `sep` right after `pre`. */
  lemma {:induction false} SplitAtFirst(pre: string, sep: string, tail: string)
    requires |sep| > 0
    requires forall j :: 0 <= j < |pre| ==> !OccursAt(pre + sep + tail, sep, j)
    ensures Find(pre + sep + tail, sep) == Some(|pre|)
    ensures Split(pre + sep + tail, sep) == [pre] + Split(tail, sep)
  {
    var s := pre + sep + tail;
    assert s[|pre|..|pre| + |sep|] == sep;
    FindFromSkips(s, sep, 0, |pre|);
    assert s[..|pre|] == pre;
    assert s[|pre| + |sep|..] == tail;
  }

  /** A string with no occurrence of `pat` before its end has none at all. */
  lemma {:induction false} FindFromNone(s: string, pat: string, k: nat)
    requires |pat| > 0 && k <= |s|
    requires forall j :: k <= j < |s| ==> !OccursAt(s, pat, j)
    ensures FindFrom(s, pat, k).None?
    decreases |s| - k
  {
    if k + |pat| <= |s| {
      assert !OccursAt(s, pat, k);
      FindFromNone(s, pat, k + 1);
    }
  }

  /** `s.replace(c, d)` for single characters is a position-wise rewrite:
      same length, every `c` becomes `d`, every other character stays. */
  lemma {:induction false} ReplaceSingleChar(s: string, c: char, d: char)
    ensures ReplaceAll(s, [c], [d]) == MapChar(s, c, d)
    decreases |s|
  {
    match Find(s, [c])
    case None =>
      NoCharBefore(s, c, |s|);
      ReplaceAllNone(s, [c], [d]);
      MapCharNone(s, c, d);
    case Some(k) =>
      var rest := s[k + 1..];
      ReplaceSingleChar(rest, c, d);
      ReplaceAllStep(s, [c], [d], k);
      NoCharBefore(s, c, k);
      assert s[k..k + 1] == [c];
      MapCharStep(s, c, d, k);
  }

  lemma {:induction false} NoCharBefore(s: string, c: char, k: nat)
    requires k <= |s|
    requires forall j :: 0 <= j < k ==> !OccursAt(s, [c], j)
    ensures forall i :: 0 <= i < k ==> s[i] != c
  {
    forall i | 0 <= i < k ensures s[i] != c {
      assert !OccursAt(s, [c], i);
      assert s[i..i + 1] == [s[i]];
    }
  }

  lemma {:induction false} ReplaceAllNone(s: string, pat: string, rep: string)
    requires |pat| > 0 && Find(s, pat).None?
    ensures ReplaceAll(s, pat, rep) == s
  {
    assert Split(s, pat) == [s];
  }

  lemma {:induction false} ReplaceAllStep(s: string, pat: string, rep: string, k: nat)
    requires |pat| > 0 && Find(s, pat) == Some(k)
    ensures k + |pat| <= |s|
    ensures ReplaceAll(s, pat, rep) == s[..k] + rep + ReplaceAll(s[k + |pat|..], pat, rep)
  {
    var tail := Split(s[k + |pat|..], pat);
    assert Split(s, pat) == [s[..k]] + tail;
    JoinCons(s[..k], tail, rep);
  }

  lemma {:induction false} MapCharNone(s: string, c: char, d: char)
    requires forall i :: 0 <= i < |s| ==> s[i] != c
    ensures MapChar(s, c, d) == s
  {
  }

  lemma {:induction false} MapCharStep(s: string, c: char, d: char, k: nat)
    requires k < |s| && s[k] == c
    requires forall i :: 0 <= i < k ==> s[i] != c
    ensures MapChar(s, c, d) == s[..k] + [d] + MapChar(s[k + 1..], c, d)
  {
    var m, r := MapChar(s, c, d), s[..k] + [d] + MapChar(s[k + 1..], c, d);
    assert |m| == |r|;
    forall i | 0 <= i < |m| ensures m[i] == r[i] {
      if i > k {
        assert r[i] == MapChar(s[k + 1..], c, d)[i - k - 1];
      }
    }
  }

  /** `str.lstrip()`: leading whitespace removed. */
  function TrimLeft(s: string): (r: string)
    ensures |r| <= |s| && r == s[|s| - |r|..]
    ensures r != [] ==> !IsSpace(r[0])
  {
    if s != [] && IsSpace(s[0]) then TrimLeft(s[1..]) else s
  }

  /** `str.rstrip()`: trailing whitespace removed. */
  function TrimRight(s: string): (r: string)
    ensures |r| <= |s| && r == s[..|r|]
    ensures r != [] ==> !IsSpace(r[|r| - 1])
  {
    if s != [] && IsSpace(s[|s| - 1]) then TrimRight(s[..|s| - 1]) else s
  }

  /** `lstrip` removes whitespace only. */
  lemma {:induction false} TrimLeftSpaceOnly(s: string)
    ensures forall i :: 0 <= i < |s| - |TrimLeft(s)| ==> IsSpace(s[i])
    decreases |s|
  {
    if s != [] && IsSpace(s[0]) {
      var t := s[1..];
      TrimLeftSpaceOnly(t);
      assert TrimLeft(s) == TrimLeft(t);
      forall i | 1 <= i < |s| - |TrimLeft(s)| ensures IsSpace(s[i]) {
        assert s[i] == t[i - 1];
      }
    }
  }

  /** `rstrip` removes whitespace only. */
  lemma {:induction false} TrimRightSpaceOnly(s: string)
    ensures forall i :: |TrimRight(s)| <= i < |s| ==> IsSpace(s[i])
    decreases |s|
  {
    if s != [] && IsSpace(s[|s| - 1]) {
      var t := s[..|s| - 1];
      TrimRightSpaceOnly(t);
      assert TrimRight(s) == TrimRight(t);
      forall i | |TrimRight(s)| <= i < |s| - 1 ensures IsSpace(s[i]) {
        assert s[i] == t[i];
      }
    }
  }

  /** `str.strip()`. */
  function Strip(s: string): string
  {
    TrimRight(TrimLeft(s))
  }

  /** `s.rstrip(chars)` where every character of `chars` is `c`. */
  function RStripChar(s: string, c: char): (r: string)
    ensures |r| <= |s| && r == s[..|r|]
    ensures r != [] ==> r[|r| - 1] != c
  {
    if s != [] && s[|s| - 1] == c then RStripChar(s[..|s| - 1], c) else s
  }

  /** `rstrip(chars)` removes only the character `c`. */
  lemma {:induction false} RStripCharOnly(s: string, c: char)
    ensures forall i :: |RStripChar(s, c)| <= i < |s| ==> s[i] == c
  {
    if s != [] && s[|s| - 1] == c {
      var t := s[..|s| - 1];
      RStripCharOnly(t, c);
      forall i | |RStripChar(s, c)| <= i < |s| ensures s[i] == c {
        if i < |t| {
          assert s[i] == t[i];
        }
      }
    }
  }

  /** `re.sub(r"\s+", "_", s)`: every maximal run of whitespace becomes a
      single underscore. */
  function CollapseSpaceRuns(s: string): string
  {
    CollapseFrom(s, false)
  }

  /** The rewrite scanning `s` one character at a time; `inRun` says the
      character before `s` was whitespace, so that its run already gave its
      underscore. */
  function CollapseFrom(s: string, inRun: bool): string
  {
    if s == [] then []
    else if IsSpace(s[0]) then (if inRun then [] else "_") + CollapseFrom(s[1..], true)
    else [s[0]] + CollapseFrom(s[1..], false)
  }

  predicate SpaceFree(s: string)
  {
    forall i :: 0 <= i < |s| ==> !IsSpace(s[i])
  }

  lemma {:induction false} CollapseFromSpaceFree(s: string, inRun: bool)
    ensures SpaceFree(CollapseFrom(s, inRun))
  {
    if s != [] {
      CollapseFromSpaceFree(s[1..], IsSpace(s[0]));
    }
  }

  /** The rewrite leaves no whitespace behind. */
  lemma {:induction false} CollapseSpaceFree(s: string)
    ensures SpaceFree(CollapseSpaceRuns(s))
  {
    CollapseFromSpaceFree(s, false);
  }

  lemma {:induction false} CollapseFromIdentity(s: string, inRun: bool)
    requires SpaceFree(s)
    ensures CollapseFrom(s, inRun) == s
  {
    if s != [] {
      assert !IsSpace(s[0]);
      CollapseFromIdentity(s[1..], false);
    }
  }

  /** A string without whitespace is left unchanged. */
  lemma {:induction false} CollapseIdentity(s: string)
    requires SpaceFree(s)
    ensures CollapseSpaceRuns(s) == s
  {
    CollapseFromIdentity(s, false);
  }

  /** Cutting after a non-whitespace character: the rest is rewritten as
      if it started the string. */
  lemma {:induction false} CollapseFromConcat(a: string, rest: string, inRun: bool)
    requires a != [] && !IsSpace(a[|a| - 1])
    ensures CollapseFrom(a + rest, inRun) == CollapseFrom(a, inRun) + CollapseFrom(rest, false)
  {
    var s := a + rest;
    assert s[0] == a[0];
    var a' := a[1..];
    assert s[1..] == a' + rest;
    var u := CollapseHead(a[0], inRun);
    CollapseFromStep(s, inRun);
    CollapseFromStep(a, inRun);
    if a' == [] {
      assert s[1..] == rest;
    } else {
      assert a'[|a'| - 1] == a[|a| - 1];
      CollapseFromConcat(a', rest, IsSpace(a[0]));
      var x, y := CollapseFrom(a', IsSpace(a[0])), CollapseFrom(rest, false);
      assert u + (x + y) == (u + x) + y;
    }
  }

  /** What `CollapseFrom` writes for the character `c`. */
  function CollapseHead(c: char, inRun: bool): string
  {
    if IsSpace(c) then (if inRun then [] else "_") else [c]
  }

  lemma {:induction false} CollapseFromStep(s: string, inRun: bool)
    requires s != []
    ensures CollapseFrom(s, inRun) == CollapseHead(s[0], inRun) + CollapseFrom(s[1..], IsSpace(s[0]))
  {
  }

  /** The rewrite distributes over a cut after a non-whitespace character. */
  lemma {:induction false} CollapseConcat(a: string, rest: string)
    requires a != [] && !IsSpace(a[|a| - 1])
    ensures CollapseSpaceRuns(a + rest) == CollapseSpaceRuns(a) + CollapseSpaceRuns(rest)
  {
    CollapseFromConcat(a, rest, false);
  }

  /** Inside a run, further whitespace adds nothing. */
  lemma {:induction false} CollapseWithinRun(w: string, b: string)
    requires forall i :: 0 <= i < |w| ==> IsSpace(w[i])
    ensures CollapseFrom(w + b, true) == CollapseFrom(b, true)
  {
    if w != [] {
      var s := w + b;
      assert s[0] == w[0];
      assert s[1..] == w[1..] + b;
      CollapseWithinRun(w[1..], b);
    } else {
      assert w + b == b;
    }
  }

  /** A leading run of whitespace becomes one underscore. */
  lemma {:induction false} CollapseLeadingRun(w: string, b: string)
    requires w != [] && forall i :: 0 <= i < |w| ==> IsSpace(w[i])
    requires b == [] || !IsSpace(b[0])
    ensures CollapseSpaceRuns(w + b) == "_" + CollapseSpaceRuns(b)
  {
    var s := w + b;
    assert s[0] == w[0];
    assert s[1..] == w[1..] + b;
    CollapseWithinRun(w[1..], b);
    assert CollapseFrom(b, true) == CollapseFrom(b, false);
  }

  /** A maximal run `w` of whitespace between a non-empty `a` and `b`
      becomes exactly one underscore. */
  lemma {:induction false} CollapseRun(a: string, w: string, b: string)
    requires w != [] && forall i :: 0 <= i < |w| ==> IsSpace(w[i])
    requires a != [] && !IsSpace(a[|a| - 1])
    requires b == [] || !IsSpace(b[0])
    ensures CollapseSpaceRuns(a + w + b) == CollapseSpaceRuns(a) + "_" + CollapseSpaceRuns(b)
  {
    var wb := w + b;
    var x := a + wb;
    assert a + w + b == x;
    CollapseLeadingRun(w, b);
    CollapseConcat(a, wb);
    var ca, cb := CollapseSpaceRuns(a), CollapseSpaceRuns(b);
    assert CollapseSpaceRuns(x) == ca + ("_" + cb);
  }

  /** Lower-casing keeps whitespace-freedom and is idempotent. */
  lemma {:induction false} LowerFacts(s: string)
    ensures |Lower(s)| == |s|
    ensures SpaceFree(s) ==> SpaceFree(Lower(s))
    ensures Lower(Lower(s)) == Lower(s)
  {
  }
}
