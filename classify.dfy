/** `ExerciseClassifier`'s table logic: the exercise names are sent to a
    language model in chunks, the fenced JSON reply is cut out of the reply
    text, each reply row is exploded into one row per muscle group and
    joined to the muscle-group table, and each exercise gets the majority
    anterior/posterior and push/pull/legs class of its muscle groups. */
module Classify {
  import opened Common
  import opened Order
  import opened Text

  // ---------------------------------------------------------------------
  // majority_or_unclear
  // ---------------------------------------------------------------------

  /** The number of occurrences of `x` in `xs`. */
  function Count(xs: seq<string>, x: string): nat
  {
    if xs == [] then 0 else Count(xs[..|xs| - 1], x) + (if xs[|xs| - 1] == x then 1 else 0)
  }

  /** The non-missing values, in order (what `Series.mode` looks at). */
  function Present(vs: seq<Option<string>>): (r: seq<string>)
    ensures forall x :: x in r <==> Some(x) in vs
  {
    if vs == [] then []
    else
      var init := Present(vs[..|vs| - 1]);
      var last := vs[|vs| - 1];
      assert vs == vs[..|vs| - 1] + [last];
      if last.Some? then init + [last.value] else init
  }

  /** The distinct values of `xs`, in order of first appearance. */
  function Dedup(xs: seq<string>): (r: seq<string>)
    ensures forall x :: x in r <==> x in xs
    ensures forall i, j :: 0 <= i < |r| && 0 <= j < |r| && i != j ==> r[i] != r[j]
  {
    if xs == [] then []
    else
      var init := Dedup(xs[..|xs| - 1]);
      var last := xs[|xs| - 1];
      assert xs == xs[..|xs| - 1] + [last];
      if last in init then init else init + [last]
  }

  /** The largest count in `xs` of a candidate in `cs`. */
  function MaxCount(xs: seq<string>, cs: seq<string>): (m: nat)
    ensures forall c :: c in cs ==> Count(xs, c) <= m
    ensures cs != [] ==> exists c :: c in cs && Count(xs, c) == m
  {
    if cs == [] then 0
    else
      var m0 := MaxCount(xs, cs[..|cs| - 1]);
      var c := Count(xs, cs[|cs| - 1]);
      assert cs == cs[..|cs| - 1] + [cs[|cs| - 1]];
      if c > m0 then c else m0
  }

  /** The candidates of `cs` that occur `m` times in `xs`. */
  function WithCount(xs: seq<string>, cs: seq<string>, m: nat): (r: seq<string>)
    ensures forall c :: c in r <==> c in cs && Count(xs, c) == m
    ensures (forall i, j :: 0 <= i < |cs| && 0 <= j < |cs| && i != j ==> cs[i] != cs[j]) ==>
      forall i, j :: 0 <= i < |r| && 0 <= j < |r| && i != j ==> r[i] != r[j]
  {
    if cs == [] then []
    else
      var init := WithCount(xs, cs[..|cs| - 1], m);
      var last := cs[|cs| - 1];
      assert cs == cs[..|cs| - 1] + [last];
      if Count(xs, last) == m then init + [last] else init
  }

  /** `Series.mode()`: the most frequent non-missing values. */
  function Modes(vs: seq<Option<string>>): seq<string>
  {
    var xs := Present(vs);
    var cs := Dedup(xs);
    WithCount(xs, cs, MaxCount(xs, cs))
  }

  /** `majority_or_unclear`: the mode when there is exactly one. */
  function MajorityOrUnclear(vs: seq<Option<string>>): string
  {
    var m := Modes(vs);
    if |m| == 1 then m[0] else "Unclear"
  }

  /** `x` occurs strictly more often than any other value. */
  ghost predicate StrictMode(xs: seq<string>, x: string)
  {
    x in xs && forall y :: y in xs && y != x ==> Count(xs, y) < Count(xs, x)
  }

  /** A value that occurs strictly more often than every other is the
      answer; any answer other than "Unclear" is such a value.  So ties and
      columns without a value give "Unclear". */
  lemma {:induction false} MajorityOrUnclearCorrect(vs: seq<Option<string>>, x: string)
    ensures StrictMode(Present(vs), x) ==> MajorityOrUnclear(vs) == x
    ensures MajorityOrUnclear(vs) != "Unclear" ==> StrictMode(Present(vs), MajorityOrUnclear(vs))
  {
    if StrictMode(Present(vs), x) {
      StrictModeWins(vs, x);
    }
    if MajorityOrUnclear(vs) != "Unclear" {
      SingleModeIsStrict(vs);
    }
  }

  /** A strict mode is the only mode. */
  lemma {:induction false} StrictModeWins(vs: seq<Option<string>>, x: string)
    requires StrictMode(Present(vs), x)
    ensures MajorityOrUnclear(vs) == x
  {
    var xs := Present(vs);
    var cs := Dedup(xs);
    var m := MaxCount(xs, cs);
    var c :| c in cs && Count(xs, c) == m;
    assert c in xs;
    assert m <= Count(xs, x);
    assert x in cs;
    WithCountSingle(xs, cs, m, x);
  }

  /** The mode, when there is only one, is strict. */
  lemma {:induction false} SingleModeIsStrict(vs: seq<Option<string>>)
    requires |Modes(vs)| == 1
    ensures StrictMode(Present(vs), Modes(vs)[0])
  {
    var xs := Present(vs);
    var cs := Dedup(xs);
    var m := MaxCount(xs, cs);
    var modes := WithCount(xs, cs, m);
    var r := modes[0];
    assert r in modes;
    forall y | y in xs && y != r ensures Count(xs, y) < Count(xs, r) {
      assert y in cs;
      assert y !in modes;
    }
  }

  /** No candidate has count `m`: nothing is selected. */
  lemma {:induction false} WithCountNone(xs: seq<string>, cs: seq<string>, m: nat)
    requires forall c :: c in cs ==> Count(xs, c) != m
    ensures WithCount(xs, cs, m) == []
  {
    if cs != [] {
      assert cs[|cs| - 1] in cs;
      assert forall c :: c in cs[..|cs| - 1] ==> c in cs;
      WithCountNone(xs, cs[..|cs| - 1], m);
    }
  }

  /** Exactly one candidate of a duplicate-free list has count `m`: it alone
      is selected. */
  lemma {:induction false} WithCountSingle(xs: seq<string>, cs: seq<string>, m: nat, x: string)
    requires forall i, j :: 0 <= i < |cs| && 0 <= j < |cs| && i != j ==> cs[i] != cs[j]
    requires x in cs && Count(xs, x) == m
    requires forall c :: c in cs && c != x ==> Count(xs, c) != m
    ensures WithCount(xs, cs, m) == [x]
  {
    var init := cs[..|cs| - 1];
    var last := cs[|cs| - 1];
    assert cs == init + [last];
    assert forall c :: c in init ==> c in cs;
    if last == x {
      assert x !in init by {
        forall i | 0 <= i < |init| ensures init[i] != x {
          assert init[i] == cs[i];
        }
      }
      WithCountNone(xs, init, m);
    } else {
      assert x in init;
      assert forall i, j :: 0 <= i < |init| && 0 <= j < |init| && i != j ==> init[i] != init[j] by {
        forall i, j | 0 <= i < |init| && 0 <= j < |init| && i != j ensures init[i] != init[j] {
          assert init[i] == cs[i] && init[j] == cs[j];
        }
      }
      WithCountSingle(xs, init, m, x);
    }
  }

  // ---------------------------------------------------------------------
  // Chunking in make_chunked_api_calls
  // ---------------------------------------------------------------------

  /** `ceil(n / k)` for `k != 0` (with exact division). */
  function CeilDiv(n: nat, k: int): (c: int)
    requires k != 0
    ensures k > 0 ==> c >= 0 && (c == 0 <==> n == 0)
    ensures k < 0 ==> c <= 0
  {
    if k > 0 then (n + k - 1) / k else -(n / -k)
  }

  /** For a positive `k`, `ceil(n / k)` chunks of `k` hold `n` items and one
      chunk fewer does not. */
  lemma {:induction false} CeilDivBounds(n: nat, k: int)
    requires k > 0
    ensures n > 0 ==> (CeilDiv(n, k) - 1) * k < n
    ensures n <= CeilDiv(n, k) * k
  {
    var c := CeilDiv(n, k);
    assert c * k <= n + k - 1 < c * k + k;
    assert (c - 1) * k == c * k - k;
  }

  function Min(a: int, b: int): int
  {
    if a <= b then a else b
  }

  /** `exercise_names[i * k : (i + 1) * k]`; Python clamps the bounds. */
  function Chunk(names: seq<string>, k: int, i: nat): seq<string>
    requires k > 0
  {
    names[Min(i * k, |names|)..Min((i + 1) * k, |names|)]
  }

  /** The chunks the loop visits. */
  function Chunks(names: seq<string>, k: nat): seq<seq<string>>
    requires k > 0
  {
    seq(CeilDiv(|names|, k), i requires 0 <= i < CeilDiv(|names|, k) => Chunk(names, k, i))
  }

  /** The names of chunk `i`, joined for the prompt. */
  function ChunkPrompt(names: seq<string>, k: int, i: nat): string
    requires k > 0
  {
    Join(Chunk(names, k, i), ", ")
  }

  /** The prompt strings of the chunked calls; an empty name list, or a
      negative chunk size, leaves nothing for `pd.concat`, which raises. */
  function ChunkedCallsSpec(names: seq<string>, k: int): Result<seq<string>>
  {
    if k == 0 then Err(ZeroDivisionError)
    else if CeilDiv(|names|, k) <= 0 then Err(ValueError("No objects to concatenate"))
    else Ok(Prompts(names, k, CeilDiv(|names|, k)))
  }

  /** The prompts of the first `n` chunks, in call order. */
  function Prompts(names: seq<string>, k: int, n: nat): (ps: seq<string>)
    requires k > 0
    ensures |ps| == n
    ensures forall i :: 0 <= i < n ==> ps[i] == ChunkPrompt(names, k, i)
  {
    if n == 0 then [] else Prompts(names, k, n - 1) + [ChunkPrompt(names, k, n - 1)]
  }

  /** `make_chunked_api_calls`, with the model's reply to each chunk left
      out: the loop collects the joined chunk of each call. */
  method MakeChunkedApiCalls(names: seq<string>, chunkSize: int) returns (r: Result<seq<string>>)
    ensures r == ChunkedCallsSpec(names, chunkSize)
  {
    if chunkSize == 0 {
      return Err(ZeroDivisionError);
    }
    var numChunks := CeilDiv(|names|, chunkSize);
    var all: seq<string> := [];
    var i := 0;
    while i < numChunks
      invariant 0 <= i && (numChunks > 0 ==> i <= numChunks) && (numChunks <= 0 ==> i == 0)
      invariant i > 0 ==> chunkSize > 0 && all == Prompts(names, chunkSize, i)
      invariant i == 0 ==> all == []
    {
      all := all + [ChunkPrompt(names, chunkSize, i)];
      i := i + 1;
    }
    if all == [] {
      assert numChunks <= 0;
      return Err(ValueError("No objects to concatenate"));
    }
    r := Ok(all);
  }

  function Flatten(cs: seq<seq<string>>): seq<string>
  {
    if cs == [] then [] else Flatten(cs[..|cs| - 1]) + cs[|cs| - 1]
  }

  lemma {:induction false} FlattenChunks(names: seq<string>, k: nat, i: nat)
    requires k > 0 && i <= CeilDiv(|names|, k)
    ensures Flatten(Chunks(names, k)[..i]) == names[..Min(i * k, |names|)]
  {
    if i > 0 {
      FlattenChunks(names, k, i - 1);
      var cs := Chunks(names, k);
      assert cs[..i][..i - 1] == cs[..i - 1];
      assert cs[..i][i - 1] == Chunk(names, k, i - 1);
      MulPred(i, k);
      PrefixSplit(names, Min((i - 1) * k, |names|), Min(i * k, |names|));
    }
  }

  lemma {:induction false} MulPred(i: nat, k: nat)
    requires i > 0
    ensures 0 <= (i - 1) * k <= i * k && (i - 1) * k + k == i * k
  {
  }

  lemma {:induction false} PrefixSplit(s: seq<string>, lo: nat, hi: nat)
    requires lo <= hi <= |s|
    ensures s[..hi] == s[..lo] + s[lo..hi]
  {
  }

  /** The chunks partition the names: there are `ceil(n / k)` of them, each
      non-empty and at most `k` long, and concatenated they give back the
      list. */
  lemma {:induction false} ChunksPartition(names: seq<string>, k: nat)
    requires k > 0
    ensures |Chunks(names, k)| == CeilDiv(|names|, k)
    ensures forall i :: 0 <= i < |Chunks(names, k)| ==> 0 < |Chunks(names, k)[i]| <= k
    ensures Flatten(Chunks(names, k)) == names
  {
    var c := CeilDiv(|names|, k);
    forall i | 0 <= i < c ensures 0 < |Chunk(names, k, i)| <= k {
      ChunkSize(names, k, i);
    }
    assert Flatten(Chunks(names, k)) == names by {
      FlattenChunks(names, k, c);
      assert Chunks(names, k)[..c] == Chunks(names, k);
      CeilDivBounds(|names|, k);
    }
  }

  /** Each of the `ceil(n / k)` chunks holds between one and `k` names. */
  lemma {:induction false} ChunkSize(names: seq<string>, k: nat, i: nat)
    requires k > 0 && i < CeilDiv(|names|, k)
    ensures 0 < |Chunk(names, k, i)| <= k
  {
    var c := CeilDiv(|names|, k);
    CeilDivBounds(|names|, k);
    MulLe(i, c - 1, k);
    assert i * k < |names|;
    MulPred(i + 1, k);
  }

  lemma {:induction false} MulLe(a: nat, b: nat, k: nat)
    requires a <= b
    ensures a * k <= b * k
  {
    assert b * k == a * k + (b - a) * k;
  }

  /** The chunked calls fail exactly for a zero chunk size, a negative one
      or an empty name list; otherwise call `i` sends chunk `i`. */
  lemma {:induction false} ChunkedCallsCorrect(names: seq<string>, k: int)
    ensures ChunkedCallsSpec(names, k).Err? <==> k <= 0 || names == []
    ensures k > 0 && names != [] ==>
      ChunkedCallsSpec(names, k).value == seq(|Chunks(names, k)|, i requires 0 <= i < |Chunks(names, k)| =>
        Join(Chunks(names, k)[i], ", "))
  {
  }

  // ---------------------------------------------------------------------
  // parse_chat_output
  // ---------------------------------------------------------------------

  const Fence: string := "```json"

  /** The JSON text of a reply: after the first fence and up to the next
      one, whitespace-stripped and with trailing backquotes removed; the
      whole reply when it has no fence. */
  function ExtractJson(content: string): string
  {
    if Contains(content, Fence) then
      SplitOfContaining(content, Fence);
      RStripChar(Strip(Split(content, Fence)[1]), '`')
    else content
  }

  /** A reply without a fence is taken whole. */
  lemma {:induction false} ExtractJsonUnfenced(content: string)
    requires forall j :: !OccursAt(content, Fence, j)
    ensures ExtractJson(content) == content
  {
    ContainsIff(content, Fence);
  }

  /** For a reply `pre` + fence + `seg` + `rest` where the fence is the
      first one and `rest` is empty or starts with the next fence, the JSON
      text is `seg` stripped. */
  lemma {:induction false} ExtractJsonFenced(pre: string, seg: string, rest: string)
    requires forall j :: 0 <= j < |pre| ==> !OccursAt(pre + Fence + seg + rest, Fence, j)
    requires forall j :: 0 <= j < |seg| ==> !OccursAt(seg + rest, Fence, j)
    requires rest == [] || OccursAt(rest, Fence, 0)
    ensures ExtractJson(pre + Fence + seg + rest) == RStripChar(Strip(seg), '`')
  {
    var content := pre + Fence + seg + rest;
    var tail := seg + rest;
    assert content == pre + Fence + tail;
    SplitAtFirst(pre, Fence, tail);
    FencedFirstPiece(seg, rest);
    assert Split(content, Fence)[1] == Split(tail, Fence)[0] == seg;
  }

  /** The text before the next fence, or all of it when there is none, is
      the first piece of the split. */
  lemma {:induction false} FencedFirstPiece(seg: string, rest: string)
    requires forall j :: 0 <= j < |seg| ==> !OccursAt(seg + rest, Fence, j)
    requires rest == [] || OccursAt(rest, Fence, 0)
    ensures Split(seg + rest, Fence)[0] == seg
  {
    var tail := seg + rest;
    if rest == [] {
      assert tail == seg;
      FindFromNone(seg, Fence, 0);
      assert Split(tail, Fence) == [seg];
    } else {
      var after := rest[|Fence|..];
      assert rest == Fence + after;
      assert tail == seg + Fence + after;
      SplitAtFirst(seg, Fence, after);
    }
  }

  /** The JSON text of a fenced reply neither starts with whitespace nor
      ends with a backquote. */
  lemma {:induction false} ExtractJsonShape(content: string)
    requires Contains(content, Fence)
    ensures var r := ExtractJson(content);
      (r != [] ==> !IsSpace(r[0])) && (r != [] ==> r[|r| - 1] != '`')
  {
    SplitOfContaining(content, Fence);
    StripRStripShape(Split(content, Fence)[1]);
  }

  /** Stripping whitespace and then trailing backquotes leaves neither
      leading whitespace nor a trailing backquote. */
  lemma {:induction false} StripRStripShape(t: string)
    ensures var r := RStripChar(Strip(t), '`');
      (r != [] ==> !IsSpace(r[0])) && (r != [] ==> r[|r| - 1] != '`')
  {
    var l := TrimLeft(t);
    var s := TrimRight(l);
    var r := RStripChar(s, '`');
    if r != [] {
      assert r[0] == s[0] == l[0];
    }
  }

  // ---------------------------------------------------------------------
  // merge_and_cleanup
  // ---------------------------------------------------------------------

  /** A row of the model's reply; `muscle_groups` is NaN when the reply
      lacks it or it is not a string. */
  datatype Response = Response(exerciseName: string, muscleGroups: Option<string>, matchScore: Option<string>)

  /** A reply row with one muscle group of its list (`muscle_groups_list`). */
  datatype Exploded = Exploded(response: Response, group: Option<string>)

  /** A row of the muscle-group table. */
  datatype MuscleGroup = MuscleGroup(muscleGroup: string, anteriorPosterior: string, pushPullLegs: string)

  /** A row of the merge: the table row of its group, or NaN columns. */
  datatype Merged = Merged(row: Exploded, info: Option<MuscleGroup>)

  const GroupSeparator: string := ", "

  /** `str.split(", ")` then `explode` for one reply row. */
  function ExplodeOne(r: Response): seq<Exploded>
  {
    match r.muscleGroups
    case None => [Exploded(r, None)]
    case Some(s) =>
      var parts := Split(s, GroupSeparator);
      seq(|parts|, k requires 0 <= k < |parts| => Exploded(r, Some(parts[k])))
  }

  /** `f` applied to each element in turn, the results concatenated. */
  function FlatMap<A, B>(xs: seq<A>, f: A -> seq<B>): seq<B>
  {
    if xs == [] then [] else FlatMap(xs[..|xs| - 1], f) + f(xs[|xs| - 1])
  }

  lemma {:induction false} FlatMapAppend<A, B>(a: seq<A>, b: seq<A>, f: A -> seq<B>)
    ensures FlatMap(a + b, f) == FlatMap(a, f) + FlatMap(b, f)
  {
    if b != [] {
      var b' := b[..|b| - 1];
      var last := b[|b| - 1];
      FlatMapAppend(a, b', f);
      var ab := a + b;
      assert ab[..|ab| - 1] == a + b';
      assert ab[|ab| - 1] == last;
      var x, y, z := FlatMap(a, f), FlatMap(b', f), f(last);
      assert (x + y) + z == x + (y + z);
    } else {
      assert a + b == a;
    }
  }

  /** `explode("muscle_groups_list")` over the reply rows. */
  function Explode(rs: seq<Response>): seq<Exploded>
  {
    FlatMap(rs, ExplodeOne)
  }

  function Groups(es: seq<Exploded>): seq<string>
    requires forall k :: 0 <= k < |es| ==> es[k].group.Some?
  {
    seq(|es|, k requires 0 <= k < |es| => es[k].group.value)
  }

  /** A reply row with a group list gives one row per listed group, in list
      order, each a copy of the reply row; the groups re-join to the list.
      A row without a list stays one row with no group. */
  lemma {:induction false} ExplodeOneCorrect(r: Response)
    ensures r.muscleGroups.None? ==> ExplodeOne(r) == [Exploded(r, None)]
    ensures r.muscleGroups.Some? ==>
      && |ExplodeOne(r)| == |Split(r.muscleGroups.value, GroupSeparator)| >= 1
      && (forall k :: 0 <= k < |ExplodeOne(r)| ==> ExplodeOne(r)[k].response == r && ExplodeOne(r)[k].group.Some?)
      && Join(Groups(ExplodeOne(r)), GroupSeparator) == r.muscleGroups.value
      && (forall k :: 0 <= k < |ExplodeOne(r)| ==> !Contains(ExplodeOne(r)[k].group.value, GroupSeparator))
  {
    if r.muscleGroups.Some? {
      var s := r.muscleGroups.value;
      var parts := Split(s, GroupSeparator);
      assert Groups(ExplodeOne(r)) == parts;
      SplitJoin(s, GroupSeparator);
      SplitPiecesFree(s, GroupSeparator);
      forall k | 0 <= k < |parts| ensures !Contains(parts[k], GroupSeparator) {
        assert parts[k] in parts;
      }
    }
  }

  /** Exploding the reply is exploding each row in turn. */
  lemma {:induction false} ExplodeAppend(a: seq<Response>, b: seq<Response>)
    ensures Explode(a + b) == Explode(a) + Explode(b)
  {
    FlatMapAppend(a, b, ExplodeOne);
  }

  /** The table rows of a muscle group, in table order. */
  function MatchesOf(table: seq<MuscleGroup>, g: string): seq<MuscleGroup>
  {
    if table == [] then []
    else
      var last := table[|table| - 1];
      MatchesOf(table[..|table| - 1], g) + (if last.muscleGroup == g then [last] else [])
  }

  /** The left-merge rows of one exploded row. */
  function MergeOne(e: Exploded, table: seq<MuscleGroup>): seq<Merged>
  {
    var m := if e.group.Some? then MatchesOf(table, e.group.value) else [];
    if m == [] then [Merged(e, None)] else seq(|m|, k requires 0 <= k < |m| => Merged(e, Some(m[k])))
  }

  /** `pd.merge(exploded_df, muscle_groups_data, left_on="muscle_groups_list",
      right_on="Muscle_Group", how="left")`. */
  function MergeGroups(es: seq<Exploded>, table: seq<MuscleGroup>): seq<Merged>
  {
    if es == [] then [] else MergeGroups(es[..|es| - 1], table) + MergeOne(es[|es| - 1], table)
  }

  /** `merge_and_cleanup`. */
  function MergeAndCleanup(rs: seq<Response>, table: seq<MuscleGroup>): seq<Merged>
  {
    MergeGroups(Explode(rs), table)
  }

  predicate UniqueGroups(table: seq<MuscleGroup>)
  {
    forall i, j :: 0 <= i < |table| && 0 <= j < |table| && i != j ==> table[i].muscleGroup != table[j].muscleGroup
  }

  /** The table row of group `g`, if any. */
  function LookupGroup(table: seq<MuscleGroup>, g: string): Option<MuscleGroup>
  {
    if table == [] then None
    else if table[|table| - 1].muscleGroup == g then Some(table[|table| - 1])
    else LookupGroup(table[..|table| - 1], g)
  }

  lemma {:induction false} MatchesOfUnique(table: seq<MuscleGroup>, g: string)
    requires UniqueGroups(table)
    ensures MatchesOf(table, g) == (if LookupGroup(table, g).Some? then [LookupGroup(table, g).value] else [])
    ensures LookupGroup(table, g).Some? ==> LookupGroup(table, g).value in table && LookupGroup(table, g).value.muscleGroup == g
    ensures LookupGroup(table, g).None? ==> forall i :: 0 <= i < |table| ==> table[i].muscleGroup != g
  {
    LookupGroupMeaning(table, g);
    if table != [] {
      var init := table[..|table| - 1];
      var last := table[|table| - 1];
      UniqueGroupsInit(table);
      MatchesOfUnique(init, g);
      if last.muscleGroup == g {
        LookupGroupMeaning(init, g);
        assert LookupGroup(init, g).None?;
        assert MatchesOf(table, g) == MatchesOf(init, g) + [last];
      } else {
        assert MatchesOf(table, g) == MatchesOf(init, g) + [];
      }
    }
  }

  /** The row found for `g` is a table row of group `g`; none is found
      exactly when no row has that group. */
  lemma {:induction false} LookupGroupMeaning(table: seq<MuscleGroup>, g: string)
    ensures LookupGroup(table, g).Some? ==> LookupGroup(table, g).value in table && LookupGroup(table, g).value.muscleGroup == g
    ensures LookupGroup(table, g).None? ==> forall i :: 0 <= i < |table| ==> table[i].muscleGroup != g
  {
    if table != [] && table[|table| - 1].muscleGroup != g {
      var init := table[..|table| - 1];
      LookupGroupMeaning(init, g);
      if LookupGroup(init, g).Some? {
        assert LookupGroup(init, g).value in table;
      } else {
        forall i | 0 <= i < |table| ensures table[i].muscleGroup != g {
          if i < |init| {
            assert table[i] == init[i];
          }
        }
      }
    }
  }

  /** Dropping the last row keeps the groups distinct, and the last row's
      group is on no earlier row. */
  lemma {:induction false} UniqueGroupsInit(table: seq<MuscleGroup>)
    requires UniqueGroups(table) && table != []
    ensures UniqueGroups(table[..|table| - 1])
    ensures forall i :: 0 <= i < |table| - 1 ==> table[i].muscleGroup != table[|table| - 1].muscleGroup
  {
    var init := table[..|table| - 1];
    forall i, j | 0 <= i < |init| && 0 <= j < |init| && i != j
      ensures init[i].muscleGroup != init[j].muscleGroup
    {
      assert init[i] == table[i] && init[j] == table[j];
    }
  }

  /** With a table that lists each group once, the merge keeps every
      exploded row exactly once, in order, with its group's table row (NaN
      when the group is not listed). */
  lemma {:induction false} MergeGroupsUnique(es: seq<Exploded>, table: seq<MuscleGroup>)
    requires UniqueGroups(table)
    ensures |MergeGroups(es, table)| == |es|
    ensures forall k :: 0 <= k < |es| ==>
      MergeGroups(es, table)[k] ==
        Merged(es[k], if es[k].group.Some? then LookupGroup(table, es[k].group.value) else None)
  {
    if es != [] {
      var init := es[..|es| - 1];
      var last := es[|es| - 1];
      MergeGroupsUnique(init, table);
      MergeOneUnique(last, table);
      var one := MergeOne(last, table);
      var l := MergeGroups(init, table);
      var m := MergeGroups(es, table);
      assert m == l + one;
      forall k | 0 <= k < |es|
        ensures m[k] == Merged(es[k], if es[k].group.Some? then LookupGroup(table, es[k].group.value) else None)
      {
        if k < |init| {
          assert es[k] == init[k] && m[k] == l[k];
        } else {
          assert m[k] == one[0];
        }
      }
    }
  }

  /** With a table that lists each group once, an exploded row merges into
      exactly one row. */
  lemma {:induction false} MergeOneUnique(e: Exploded, table: seq<MuscleGroup>)
    requires UniqueGroups(table)
    ensures MergeOne(e, table) == [Merged(e, if e.group.Some? then LookupGroup(table, e.group.value) else None)]
  {
    if e.group.Some? {
      MatchesOfUnique(table, e.group.value);
    }
  }

  lemma {:induction false} MatchesOfHas(table: seq<MuscleGroup>, t: MuscleGroup)
    requires t in table
    ensures t in MatchesOf(table, t.muscleGroup)
  {
    var init := table[..|table| - 1];
    if t != table[|table| - 1] {
      assert table == init + [table[|table| - 1]];
      MatchesOfHas(init, t);
    }
  }

  /** Whatever the table, the left merge keeps every exploded row, and
      pairs it with every table row of its group. */
  lemma {:induction false} MergeGroupsKeeps(es: seq<Exploded>, table: seq<MuscleGroup>, e: Exploded)
    requires e in es
    ensures exists m :: m in MergeGroups(es, table) && m.row == e
    ensures forall t :: t in table && e.group == Some(t.muscleGroup) ==> Merged(e, Some(t)) in MergeGroups(es, table)
  {
    var init := es[..|es| - 1];
    var last := es[|es| - 1];
    assert es == init + [last];
    var before, one := MergeGroups(init, table), MergeOne(last, table);
    assert MergeGroups(es, table) == before + one;
    if e == last {
      MergeOneKeeps(e, table);
      InRight(before, one, one[0]);
      forall t | t in table && e.group == Some(t.muscleGroup) ensures Merged(e, Some(t)) in MergeGroups(es, table) {
        InRight(before, one, Merged(e, Some(t)));
      }
    } else {
      MergeGroupsKeeps(init, table, e);
      var m :| m in before && m.row == e;
      InLeft(before, one, m);
      forall t | t in table && e.group == Some(t.muscleGroup) ensures Merged(e, Some(t)) in MergeGroups(es, table) {
        InLeft(before, one, Merged(e, Some(t)));
      }
    }
  }

  /** The merge rows of one exploded row: the first keeps it, and every
      table row of its group is paired with it. */
  lemma {:induction false} MergeOneKeeps(e: Exploded, table: seq<MuscleGroup>)
    ensures |MergeOne(e, table)| > 0 && MergeOne(e, table)[0].row == e
    ensures forall t :: t in table && e.group == Some(t.muscleGroup) ==> Merged(e, Some(t)) in MergeOne(e, table)
  {
    var one := MergeOne(e, table);
    forall t | t in table && e.group == Some(t.muscleGroup) ensures Merged(e, Some(t)) in one {
      MatchesOfHas(table, t);
      var m := MatchesOf(table, t.muscleGroup);
      var k :| 0 <= k < |m| && m[k] == t;
      assert one[k] == Merged(e, Some(t));
    }
  }

  lemma {:induction false} InLeft<T>(a: seq<T>, b: seq<T>, x: T)
    requires x in a
    ensures x in a + b
  {
    var i :| 0 <= i < |a| && a[i] == x;
    assert (a + b)[i] == x;
  }

  lemma {:induction false} InRight<T>(a: seq<T>, b: seq<T>, x: T)
    requires x in b
    ensures x in a + b
  {
    var i :| 0 <= i < |b| && b[i] == x;
    assert (a + b)[|a| + i] == x;
  }


  // ---------------------------------------------------------------------
  // group_and_aggregate
  // ---------------------------------------------------------------------

  /** A row of the grouped table. */
  datatype Classified = Classified(exerciseName: string, anteriorPosterior: string, pushPullLegs: string)

  function ExerciseNames(ms: seq<Merged>): seq<string>
  {
    seq(|ms|, k requires 0 <= k < |ms| => ms[k].row.response.exerciseName)
  }

  /** The `Anterior_Posterior` column of exercise `n`'s rows. */
  function AnteriorPosteriorOf(ms: seq<Merged>, n: string): seq<Option<string>>
  {
    if ms == [] then []
    else
      var last := ms[|ms| - 1];
      AnteriorPosteriorOf(ms[..|ms| - 1], n) +
        (if last.row.response.exerciseName == n
         then [if last.info.Some? then Some(last.info.value.anteriorPosterior) else None]
         else [])
  }

  /** The `Push_Pull_Legs` column of exercise `n`'s rows. */
  function PushPullLegsOf(ms: seq<Merged>, n: string): seq<Option<string>>
  {
    if ms == [] then []
    else
      var last := ms[|ms| - 1];
      PushPullLegsOf(ms[..|ms| - 1], n) +
        (if last.row.response.exerciseName == n
         then [if last.info.Some? then Some(last.info.value.pushPullLegs) else None]
         else [])
  }

  /** `groupby("exercise_name").agg({...: majority_or_unclear}).reset_index()`. */
  function GroupAndAggregate(ms: seq<Merged>): seq<Classified>
  {
    var names := DistinctSorted(ExerciseNames(ms), StrLess);
    seq(|names|, k requires 0 <= k < |names| =>
      Classified(names[k], MajorityOrUnclear(AnteriorPosteriorOf(ms, names[k])),
                 MajorityOrUnclear(PushPullLegsOf(ms, names[k]))))
  }

  ghost predicate HasExercise(ms: seq<Merged>, n: string)
  {
    exists k :: 0 <= k < |ms| && ms[k].row.response.exerciseName == n
  }

  /** One row per distinct exercise name, in ascending name order, each
      carrying the majority class of that exercise's rows. */
  lemma {:induction false} GroupAndAggregateCorrect(ms: seq<Merged>, g: seq<Classified>)
    requires g == GroupAndAggregate(ms)
    ensures forall i, j :: 0 <= i < j < |g| ==> StrLess(g[i].exerciseName, g[j].exerciseName)
    ensures forall n :: (exists k :: 0 <= k < |g| && g[k].exerciseName == n) <==> HasExercise(ms, n)
    ensures forall k :: 0 <= k < |g| ==>
      g[k].anteriorPosterior == MajorityOrUnclear(AnteriorPosteriorOf(ms, g[k].exerciseName)) &&
      g[k].pushPullLegs == MajorityOrUnclear(PushPullLegsOf(ms, g[k].exerciseName))
  {
    var names := DistinctSorted(ExerciseNames(ms), StrLess);
    StrLessStrict();
    DistinctSortedCorrect(ExerciseNames(ms), StrLess);
    forall n ensures (exists k :: 0 <= k < |g| && g[k].exerciseName == n) <==> HasExercise(ms, n) {
      ExerciseNamesHas(ms, n);
      GroupNames(ms, g, n);
    }
  }

  /** A name is in the `exercise_name` column exactly when some row has it. */
  lemma {:induction false} ExerciseNamesHas(ms: seq<Merged>, n: string)
    ensures n in ExerciseNames(ms) <==> HasExercise(ms, n)
  {
    if n in ExerciseNames(ms) {
      var i :| 0 <= i < |ms| && ExerciseNames(ms)[i] == n;
      assert ms[i].row.response.exerciseName == n;
    }
    if HasExercise(ms, n) {
      var i :| 0 <= i < |ms| && ms[i].row.response.exerciseName == n;
      assert ExerciseNames(ms)[i] == n;
    }
  }

  /** The grouped table's names are the distinct sorted names. */
  lemma {:induction false} GroupNames(ms: seq<Merged>, g: seq<Classified>, n: string)
    requires g == GroupAndAggregate(ms)
    ensures (exists k :: 0 <= k < |g| && g[k].exerciseName == n) <==> n in DistinctSorted(ExerciseNames(ms), StrLess)
  {
    var names := DistinctSorted(ExerciseNames(ms), StrLess);
    if n in names {
      var k :| 0 <= k < |names| && names[k] == n;
      assert g[k].exerciseName == n;
    }
  }

  /** An exercise's group holds one class cell per merged row of it. */
  lemma {:induction false} ClassCellsPerRow(ms: seq<Merged>, n: string)
    ensures |AnteriorPosteriorOf(ms, n)| == |PushPullLegsOf(ms, n)|
    ensures !HasExercise(ms, n) ==> AnteriorPosteriorOf(ms, n) == [] && PushPullLegsOf(ms, n) == []
  {
    if ms != [] {
      var init := ms[..|ms| - 1];
      ClassCellsPerRow(init, n);
      if !HasExercise(ms, n) {
        assert !HasExercise(init, n) by {
          forall k | 0 <= k < |init| ensures init[k].row.response.exerciseName != n {
            assert init[k] == ms[k];
          }
        }
      }
    }
  }
}
