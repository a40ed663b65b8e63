/**
 * The hand-rolled template renderer of the leave-notification mailer
 * (`render_template` in utils/email_service1.py).
 *
 * Rendering runs in two passes over the context, in context order:
 * first every `{{ key }}` is replaced by the text of its value, then every
 * key acts on its conditional blocks: a falsy key deletes each
 * `{% if key %}` ... first following `{% endif %}` block, a truthy key
 * deletes its `{% if key %}` markers and then every `{% endif %}` of the text.
 */
module Template {
  import opened Wrappers
  import opened Text

  /** The Python values a context may hold. */
  datatype Value = NoneValue | Bool(b: bool) | Int(i: int) | Str(s: string)

  /** Python `str(value)`. */
  function PyStr(v: Value): string
  {
    match v
    case NoneValue => "None"
    case Bool(b) => if b then "True" else "False"
    case Int(i) => IntToString(i)
    case Str(s) => s
  }

  /** Python truthiness: `None`, `False`, `0` and `''` are falsy. */
  predicate Truthy(v: Value)
  {
    match v
    case NoneValue => false
    case Bool(b) => b
    case Int(i) => i != 0
    case Str(s) => s != ""
  }

  /** The text a placeholder is replaced by: `''` for `None`, else `str(value)`. */
  function ReplacementText(v: Value): string
  {
    if v.NoneValue? then "" else PyStr(v)
  }

  function Placeholder(key: string): string { "{{ " + key + " }}" }

  function IfMarker(key: string): string { "{% if " + key + " %}" }

  const EndIf: string := "{% endif %}"

  /** Python `s.replace(pat, repl)` for a non-empty `pat`: left to right, non-overlapping. */
  function Replace(s: string, pat: string, repl: string): string
    requires |pat| > 0
    decreases |s|
  {
    if |s| < |pat| then s
    else if s[..|pat|] == pat then repl + Replace(s[|pat|..], pat, repl)
    else [s[0]] + Replace(s[1..], pat, repl)
  }

  /**
   * The text between the occurrences of `pat` that `Replace` rewrites:
   * `s` is these pieces joined by `pat`.
   */
  function Pieces(s: string, pat: string): (r: seq<string>)
    requires |pat| > 0
    ensures |r| >= 1 && r[0] <= s
    decreases |s|
  {
    if |s| < |pat| then [s]
    else if s[..|pat|] == pat then [""] + Pieces(s[|pat|..], pat)
    else
      var p := Pieces(s[1..], pat);
      [[s[0]] + p[0]] + p[1..]
  }

  /**
   * Where a block that opens at the very start of `s` ends: just past the
   * first `close` that follows the `open` marker.
   */
  function BlockEnd(s: string, open: string, close: string): (r: Option<nat>)
    requires |open| > 0 && |close| > 0
    ensures r.Some? <==> OccursAt(s, open, 0) && Find(s[|open|..], close).Some?
    ensures r.Some? ==> r.value == |open| + Find(s[|open|..], close).value + |close| <= |s|
  {
    if OccursAt(s, open, 0) then
      match Find(s[|open|..], close)
      case Some(j) => Some(|open| + j + |close|)
      case None => None
    else None
  }

  /**
   * `re.sub(open + '.*?' + close, '', s, flags=re.DOTALL)` for literal markers:
   * each `open` that has a `close` after it is deleted up to and including the
   * first such `close`; an `open` with no `close` after it stays.
   */
  function RemoveBlocks(s: string, open: string, close: string): string
    requires |open| > 0 && |close| > 0
    decreases |s|
  {
    match BlockEnd(s, open, close)
    case Some(e) => RemoveBlocks(s[e..], open, close)
    case None => if |s| == 0 then s else [s[0]] + RemoveBlocks(s[1..], open, close)
  }

  /** First pass, one key: every `{{ key }}` replaced by the value's text. */
  function Substitute(s: string, entry: (string, Value)): string
  {
    Replace(s, Placeholder(entry.0), ReplacementText(entry.1))
  }

  /** First pass over the whole context, in context order. */
  function SubstituteAll(t: string, ctx: seq<(string, Value)>): string
    decreases |ctx|
  {
    if |ctx| == 0 then t else Substitute(SubstituteAll(t, ctx[..|ctx| - 1]), ctx[|ctx| - 1])
  }

  /** Second pass, one key. */
  function ApplyConditional(s: string, entry: (string, Value)): string
  {
    if !Truthy(entry.1) then RemoveBlocks(s, IfMarker(entry.0), EndIf)
    else Replace(Replace(s, IfMarker(entry.0), ""), EndIf, "")
  }

  /** Second pass over the whole context, in context order. */
  function ApplyConditionals(s: string, ctx: seq<(string, Value)>): string
    decreases |ctx|
  {
    if |ctx| == 0 then s else ApplyConditional(ApplyConditionals(s, ctx[..|ctx| - 1]), ctx[|ctx| - 1])
  }

  /** What `render_template(template, **context)` returns. */
  function Render(t: string, ctx: seq<(string, Value)>): string
  {
    ApplyConditionals(SubstituteAll(t, ctx), ctx)
  }

  /** `render_template`: two loops over the context that rewrite `result` step by step. */
  method RenderTemplate(template: string, context: seq<(string, Value)>) returns (result: string)
    ensures result == Render(template, context)
  {
    result := template;
    var i := 0;
    while i < |context|
      invariant 0 <= i <= |context|
      invariant result == SubstituteAll(template, context[..i])
    {
      var (key, value) := context[i];
      var placeholder := "{{ " + key + " }}";
      assert context[..i + 1][..i] == context[..i] && context[i] == (key, value);
      assert SubstituteAll(template, context[..i + 1]) == Substitute(result, (key, value));
      result := Replace(result, placeholder, if value.NoneValue? then "" else PyStr(value));
      i := i + 1;
    }
    assert context[..|context|] == context;
    ghost var substituted := result;
    var k := 0;
    while k < |context|
      invariant 0 <= k <= |context|
      invariant result == ApplyConditionals(substituted, context[..k])
    {
      var (key, value) := context[k];
      assert context[..k + 1][..k] == context[..k] && context[k] == (key, value);
      assert ApplyConditionals(substituted, context[..k + 1]) == ApplyConditional(result, (key, value));
      if !Truthy(value) {
        result := RemoveBlocks(result, "{% if " + key + " %}", "{% endif %}");
      } else {
        result := Replace(result, "{% if " + key + " %}", "");
        result := Replace(result, "{% endif %}", "");
      }
      k := k + 1;
    }
  }

  // ---------------------------------------------------------------------------
  // str.replace: every leftmost occurrence is rewritten, and nothing else

  lemma {:induction false} JoinOntoFirst(x: string, p: seq<string>, sep: string)
    requires |p| >= 1
    ensures Join([x + p[0]] + p[1..], sep) == x + Join(p, sep)
  {
    if |p| > 1 {
      assert ([x + p[0]] + p[1..])[1..] == p[1..];
    }
  }

  lemma {:induction false} JoinAfterEmpty(p: seq<string>, sep: string)
    requires |p| >= 1
    ensures Join([""] + p, sep) == sep + Join(p, sep)
  {
    assert ([""] + p)[1..] == p;
  }

  /** `s.replace(pat, repl)` joins the pieces of `s` with `repl`. */
  lemma {:induction false} ReplaceJoinsPieces(s: string, pat: string, repl: string)
    requires |pat| > 0
    ensures Replace(s, pat, repl) == Join(Pieces(s, pat), repl)
    decreases |s|
  {
    if |s| < |pat| {
    } else if s[..|pat|] == pat {
      ReplaceJoinsPieces(s[|pat|..], pat, repl);
      JoinAfterEmpty(Pieces(s[|pat|..], pat), repl);
    } else {
      ReplaceJoinsPieces(s[1..], pat, repl);
      JoinOntoFirst([s[0]], Pieces(s[1..], pat), repl);
    }
  }

  /** Joining the pieces with `pat` again gives back `s`. */
  lemma {:induction false} PiecesJoinBack(s: string, pat: string)
    requires |pat| > 0
    ensures Join(Pieces(s, pat), pat) == s
    decreases |s|
  {
    if |s| < |pat| {
    } else if s[..|pat|] == pat {
      var rest := s[|pat|..];
      PiecesJoinBack(rest, pat);
      JoinAfterEmpty(Pieces(rest, pat), pat);
      assert s == pat + rest;
    } else {
      PiecesJoinBack(s[1..], pat);
      JoinOntoFirst([s[0]], Pieces(s[1..], pat), pat);
      assert s == [s[0]] + s[1..];
    }
  }

  /** An occurrence inside `[c] + x` past its first character is one inside `x`. */
  lemma {:induction false} OccursAfterHead(c: char, x: string, pat: string, i: nat)
    requires i > 0 && OccursAt([c] + x, pat, i)
    ensures OccursAt(x, pat, i - 1)
  {
    assert ([c] + x)[i..i + |pat|] == x[i - 1..i - 1 + |pat|];
  }

  /** No piece contains `pat`. */
  lemma {:induction false} PiecesFree(s: string, pat: string)
    requires |pat| > 0
    ensures forall k: nat, i: nat :: k < |Pieces(s, pat)| ==> !OccursAt(Pieces(s, pat)[k], pat, i)
    decreases |s|
  {
    var P := Pieces(s, pat);
    if |s| < |pat| {
      forall k: nat, i: nat | k < |P| ensures !OccursAt(P[k], pat, i) {
        assert P[k] == s;
      }
    } else if s[..|pat|] == pat {
      var p := Pieces(s[|pat|..], pat);
      PiecesFree(s[|pat|..], pat);
      forall k: nat, i: nat | k < |P| ensures !OccursAt(P[k], pat, i) {
        if k > 0 { assert P[k] == p[k - 1]; }
      }
    } else {
      var p := Pieces(s[1..], pat);
      PiecesFree(s[1..], pat);
      forall k: nat, i: nat | k < |P| ensures !OccursAt(P[k], pat, i) {
        if k > 0 {
          assert P[k] == p[k];
        } else if i > 0 && OccursAt(P[0], pat, i) {
          OccursAfterHead(s[0], p[0], pat, i);
          assert false;
        }
      }
    }
  }

  /**
   * `s.replace(pat, repl)` is `s` cut at the occurrences of `pat` and joined
   * again with `repl`: `s` is the same pieces joined with `pat`, and no piece
   * contains `pat`, so every occurrence is replaced.
   */
  lemma {:induction false} ReplaceIsJoinOfPieces(s: string, pat: string, repl: string)
    requires |pat| > 0
    ensures Replace(s, pat, repl) == Join(Pieces(s, pat), repl)
    ensures Join(Pieces(s, pat), pat) == s
    ensures forall k: nat, i: nat :: k < |Pieces(s, pat)| ==> !OccursAt(Pieces(s, pat)[k], pat, i)
  {
    ReplaceJoinsPieces(s, pat, repl);
    PiecesJoinBack(s, pat);
    PiecesFree(s, pat);
  }

  /** A text without `pat` is left as it is. */
  lemma {:induction false} ReplaceAbsent(s: string, pat: string, repl: string)
    requires |pat| > 0 && Find(s, pat).None?
    ensures Replace(s, pat, repl) == s
    decreases |s|
  {
    if |s| >= |pat| {
      assert !OccursAt(s, pat, 0);
      NoneInSuffix(s, pat, 1);
      ReplaceAbsent(s[1..], pat, repl);
    }
  }

  // ---------------------------------------------------------------------------
  // The falsy-key regular expression

  /** An occurrence in a suffix is an occurrence in the whole text. */
  lemma {:induction false} OccursInSuffix(s: string, p: string, n: nat, j: nat)
    requires n <= |s| && OccursAt(s[n..], p, j)
    ensures OccursAt(s, p, n + j)
  {
    assert s[n + j..n + j + |p|] == s[n..][j..j + |p|];
  }

  /** A text without `p` has no `p` in any suffix. */
  lemma {:induction false} NoneInSuffix(s: string, p: string, n: nat)
    requires |p| > 0 && n <= |s| && Find(s, p).None?
    ensures Find(s[n..], p).None?
  {
    var r := Find(s[n..], p);
    if r.Some? {
      assert !OccursAt(s, p, n + r.value);
      OccursInSuffix(s, p, n, r.value);
    }
  }

  /** A prefix free of `p` stays free of it once its first character is dropped. */
  lemma {:induction false} PrefixFreeTail(x: string, y: string, p: string)
    requires |x| > 0 && forall j: nat :: j < |x| ==> !OccursAt(x + y, p, j)
    ensures (x + y)[1..] == x[1..] + y && !OccursAt(x + y, p, 0)
    ensures forall j: nat :: j < |x| - 1 ==> !OccursAt(x[1..] + y, p, j)
  {
    assert (x + y)[1..] == x[1..] + y;
    forall j: nat | j < |x| - 1 ensures !OccursAt(x[1..] + y, p, j) {
      assert !OccursAt(x + y, p, j + 1);
      if OccursAt(x[1..] + y, p, j) {
        OccursInSuffix(x + y, p, 1, j);
      }
    }
  }

  /** A block at the start of the text is deleted. */
  lemma {:induction false} RemoveBlocksAt(s: string, open: string, close: string, k: nat)
    requires |open| > 0 && |close| > 0 && BlockEnd(s, open, close) == Some(k)
    ensures k <= |s| && RemoveBlocks(s, open, close) == RemoveBlocks(s[k..], open, close)
  {
  }

  /** Where no `open` starts, the first character is kept. */
  lemma {:induction false} RemoveBlocksSkip(s: string, open: string, close: string)
    requires |open| > 0 && |close| > 0 && |s| > 0 && !OccursAt(s, open, 0)
    ensures RemoveBlocks(s, open, close) == [s[0]] + RemoveBlocks(s[1..], open, close)
  {
  }

  /** A prefix in which no `open` starts is kept as it is. */
  lemma {:induction false} RemoveBlocksKeepsPrefix(x: string, y: string, open: string, close: string)
    requires |open| > 0 && |close| > 0
    requires forall j: nat :: j < |x| ==> !OccursAt(x + y, open, j)
    ensures RemoveBlocks(x + y, open, close) == x + RemoveBlocks(y, open, close)
    decreases |x|
  {
    if |x| > 0 {
      var x' := x[1..];
      PrefixFreeTail(x, y, open);
      RemoveBlocksKeepsPrefix(x', y, open, close);
      RemoveBlocksSkip(x + y, open, close);
      assert x == [x[0]] + x';
    } else {
      assert x + y == y;
    }
  }

  /**
   * The first `open` in the text starts a block that runs to the first
   * `close` after it; the text before the block stays, the block goes, and
   * the rest is processed in the same way.
   */
  lemma {:induction false} RemoveBlocksFirst(s: string, open: string, close: string, i: nat, k: nat)
    requires |open| > 0 && |close| > 0
    requires i <= |s| && forall j: nat :: j < i ==> !OccursAt(s, open, j)
    requires BlockEnd(s[i..], open, close) == Some(k)
    ensures i + k <= |s|
    ensures RemoveBlocks(s, open, close) == s[..i] + RemoveBlocks(s[i + k..], open, close)
  {
    assert s == s[..i] + s[i..];
    RemoveBlocksKeepsPrefix(s[..i], s[i..], open, close);
    RemoveBlocksAt(s[i..], open, close, k);
    assert s[i..][k..] == s[i + k..];
  }

  /** Without any `close`, no block can match and the text is kept. */
  lemma {:induction false} RemoveBlocksNoClose(s: string, open: string, close: string)
    requires |open| > 0 && |close| > 0 && Find(s, close).None?
    ensures RemoveBlocks(s, open, close) == s
    decreases |s|
  {
    if |s| > 0 {
      if |s| >= |open| { NoneInSuffix(s, close, |open|); }
      NoneInSuffix(s, close, 1);
      RemoveBlocksNoClose(s[1..], open, close);
    }
  }

  /** Without any `open`, the text is kept. */
  lemma {:induction false} RemoveBlocksNoOpen(s: string, open: string, close: string)
    requires |open| > 0 && |close| > 0 && Find(s, open).None?
    ensures RemoveBlocks(s, open, close) == s
    decreases |s|
  {
    if |s| > 0 {
      assert !OccursAt(s, open, 0);
      NoneInSuffix(s, open, 1);
      RemoveBlocksNoOpen(s[1..], open, close);
    }
  }

  // ---------------------------------------------------------------------------
  // Properties of rendering

  /** An empty context returns the template unchanged. */
  lemma {:induction false} RenderEmptyContext(t: string)
    ensures Render(t, []) == t
  {
  }

  /**
   * One substitution step: the text is cut at its `{{ key }}` placeholders and
   * joined with the value's text (`''` for `None`); no piece holds a placeholder.
   */
  lemma {:induction false} SubstituteReplacesEveryPlaceholder(s: string, key: string, v: Value)
    ensures Substitute(s, (key, v)) == Join(Pieces(s, Placeholder(key)), ReplacementText(v))
    ensures Join(Pieces(s, Placeholder(key)), Placeholder(key)) == s
    ensures forall k: nat, i: nat :: k < |Pieces(s, Placeholder(key))| ==>
              !OccursAt(Pieces(s, Placeholder(key))[k], Placeholder(key), i)
    ensures v.NoneValue? ==> ReplacementText(v) == ""
  {
    ReplaceIsJoinOfPieces(s, Placeholder(key), ReplacementText(v));
  }

  /** Placeholders of keys the context does not hold are untouched by the first pass. */
  lemma {:induction false} SubstituteAllWithoutPlaceholders(t: string, ctx: seq<(string, Value)>)
    requires forall k :: 0 <= k < |ctx| ==> Find(t, Placeholder(ctx[k].0)).None?
    ensures SubstituteAll(t, ctx) == t
    decreases |ctx|
  {
    if |ctx| > 0 {
      SubstituteAllWithoutPlaceholders(t, ctx[..|ctx| - 1]);
      ReplaceAbsent(t, Placeholder(ctx[|ctx| - 1].0), ReplacementText(ctx[|ctx| - 1].1));
    }
  }

  /** Python keyword names, the keys `render_template` sees, hold no braces. */
  predicate BraceFree(key: string)
  {
    forall m :: 0 <= m < |key| ==> key[m] != '{' && key[m] != '}'
  }

  /** A placeholder of a brace-free key has `{{` at its start, `}}` at its end and no other brace. */
  lemma {:induction false} PlaceholderBraces(key: string)
    requires BraceFree(key)
    ensures |Placeholder(key)| == |key| + 6 && Placeholder(key)[2] == ' '
    ensures forall m :: 0 <= m < |key| ==> Placeholder(key)[m + 3] == key[m]
    ensures forall m :: 0 <= m < |Placeholder(key)| ==> (Placeholder(key)[m] == '{' <==> m < 2)
    ensures forall m :: 0 <= m < |Placeholder(key)| ==> (Placeholder(key)[m] == '}' <==> m >= |key| + 4)
  {
    var p := Placeholder(key);
    forall m | 0 <= m < |p| ensures (p[m] == '{' <==> m < 2) && (p[m] == '}' <==> m >= |key| + 4) {
      if 3 <= m < 3 + |key| {
        assert p[m] == key[m - 3];
      }
    }
  }

  /** The characters of an occurrence are those of the pattern. */
  lemma {:induction false} OccurrenceChars(s: string, p: string, j: nat)
    requires OccursAt(s, p, j)
    ensures forall n :: j <= n < j + |p| ==> s[n] == p[n - j]
  {
    forall n | j <= n < j + |p| ensures s[n] == p[n - j] {
      assert s[j..j + |p|][n - j] == s[n];
    }
  }

  /**
   * Placeholders of brace-free keys never overlap: two occurrences are
   * apart, or they are the same placeholder at the same place.
   */
  lemma {:induction false} PlaceholdersApart(s: string, k: string, x: string, j: nat, i: nat)
    requires BraceFree(k) && BraceFree(x)
    requires OccursAt(s, Placeholder(k), j) && OccursAt(s, Placeholder(x), i)
    ensures j + |Placeholder(k)| <= i || i + |Placeholder(x)| <= j || (i == j && k == x)
  {
    PlaceholderBraces(k);
    PlaceholderBraces(x);
    OccurrenceChars(s, Placeholder(k), j);
    OccurrenceChars(s, Placeholder(x), i);
    assert s[i] == s[i + 1] == s[j] == s[j + 1] == '{';
    assert s[i + |x| + 4] == '}' && s[j + |k| + 4] == '}';
    if i == j && |k| == |x| {
      assert forall m :: 0 <= m < |k| ==> k[m] == s[i + 3 + m] == x[m];
    }
  }

  /** An occurrence found in the tail of a text is found in the whole text. */
  lemma {:induction false} FoundAfter(x: string, y: string, q: string, r: nat)
    requires |q| > 0 && OccursAt(y, q, r)
    ensures Find(x + y, q).Some?
  {
    assert (x + y)[|x|..] == y;
    OccursInSuffix(x + y, q, |x|, r);
  }

  /** An occurrence of `q` that no occurrence of `pat` overlaps survives `s.replace(pat, repl)`. */
  lemma {:induction false} ReplaceKeepsOccurrence(s: string, pat: string, repl: string, q: string, i: nat)
    requires |pat| > 0 && |q| > 0 && OccursAt(s, q, i)
    requires forall j: nat :: OccursAt(s, pat, j) ==> j + |pat| <= i || i + |q| <= j
    ensures Find(Replace(s, pat, repl), q).Some?
    decreases |s|
  {
    if |s| < |pat| {
      assert Replace(s, pat, repl) == s;
    } else if s[..|pat|] == pat {
      assert OccursAt(s, pat, 0);
      var rest := s[|pat|..];
      assert rest[i - |pat|..i - |pat| + |q|] == s[i..i + |q|];
      forall j: nat | OccursAt(rest, pat, j) ensures j + |pat| <= i - |pat| || i - |pat| + |q| <= j {
        OccursInSuffix(s, pat, |pat|, j);
      }
      ReplaceKeepsOccurrence(rest, pat, repl, q, i - |pat|);
      var r := Find(Replace(rest, pat, repl), q);
      FoundAfter(repl, Replace(rest, pat, repl), q, r.value);
    } else if i == 0 {
      var x, y := s[..|q|], s[|q|..];
      assert x + y == s;
      ReplaceKeepsPrefix(x, y, pat, repl);
      assert (x + Replace(y, pat, repl))[..|q|] == x;
      assert OccursAt(Replace(s, pat, repl), q, 0);
    } else {
      var rest := s[1..];
      assert rest[i - 1..i - 1 + |q|] == s[i..i + |q|];
      forall j: nat | OccursAt(rest, pat, j) ensures j + |pat| <= i - 1 || i - 1 + |q| <= j {
        OccursInSuffix(s, pat, 1, j);
      }
      ReplaceSkip(s, pat, repl);
      ReplaceKeepsOccurrence(rest, pat, repl, q, i - 1);
      var r := Find(Replace(rest, pat, repl), q);
      FoundAfter([s[0]], Replace(rest, pat, repl), q, r.value);
    }
  }

  /** Substituting one key keeps every placeholder of another key. */
  lemma {:induction false} SubstituteKeepsPlaceholder(s: string, entry: (string, Value), x: string)
    requires BraceFree(entry.0) && BraceFree(x) && entry.0 != x
    requires Find(s, Placeholder(x)).Some?
    ensures Find(Substitute(s, entry), Placeholder(x)).Some?
  {
    var i := Find(s, Placeholder(x)).value;
    forall j: nat | OccursAt(s, Placeholder(entry.0), j)
      ensures j + |Placeholder(entry.0)| <= i || i + |Placeholder(x)| <= j
    {
      PlaceholdersApart(s, entry.0, x, j, i);
    }
    ReplaceKeepsOccurrence(s, Placeholder(entry.0), ReplacementText(entry.1), Placeholder(x), i);
  }

  /**
   * The first pass leaves the placeholders of keys the context does not
   * hold: `{{ date }}` is still there after a context of `name` alone.
   */
  lemma {:induction false} SubstituteAllKeepsAbsentPlaceholder(t: string, ctx: seq<(string, Value)>, x: string)
    requires BraceFree(x) && forall k :: 0 <= k < |ctx| ==> BraceFree(ctx[k].0) && ctx[k].0 != x
    requires Find(t, Placeholder(x)).Some?
    ensures Find(SubstituteAll(t, ctx), Placeholder(x)).Some?
    decreases |ctx|
  {
    if |ctx| > 0 {
      var n := |ctx| - 1;
      SubstituteAllKeepsAbsentPlaceholder(t, ctx[..n], x);
      SubstituteKeepsPlaceholder(SubstituteAll(t, ctx[..n]), ctx[n], x);
    }
  }

  /**
   * A falsy key deletes its first block, from the first `{% if key %}` up to
   * the first `{% endif %}` after it, keeps the text before it, and goes on
   * with the rest.
   */
  lemma {:induction false} FalsyKeyDeletesBlock(s: string, key: string, v: Value, i: nat, k: nat)
    requires !Truthy(v)
    requires i <= |s| && forall j: nat :: j < i ==> !OccursAt(s, IfMarker(key), j)
    requires BlockEnd(s[i..], IfMarker(key), EndIf) == Some(k)
    ensures i + k <= |s|
    ensures ApplyConditional(s, (key, v)) == s[..i] + RemoveBlocks(s[i + k..], IfMarker(key), EndIf)
  {
    RemoveBlocksFirst(s, IfMarker(key), EndIf, i, k);
  }

  /**
   * A falsy key processed once the `{% endif %}` markers are gone keeps its
   * `{% if key %}` markers: the pattern needs an endif to match.
   */
  lemma {:induction false} FalsyKeyWithoutEndIf(s: string, key: string, v: Value)
    requires !Truthy(v) && Find(s, EndIf).None?
    ensures ApplyConditional(s, (key, v)) == s
  {
    RemoveBlocksNoClose(s, IfMarker(key), EndIf);
  }

  /**
   * A truthy key removes its `{% if key %}` markers and keeps the enclosed
   * text: the result is the text between the markers, and then between the
   * `{% endif %}` markers, put together with nothing in between.
   */
  lemma {:induction false} TruthyKeyUnwraps(s: string, key: string, v: Value)
    requires Truthy(v)
    ensures ApplyConditional(s, (key, v))
         == Join(Pieces(Join(Pieces(s, IfMarker(key)), ""), EndIf), "")
    ensures Join(Pieces(s, IfMarker(key)), IfMarker(key)) == s
    ensures forall k: nat, i: nat :: k < |Pieces(Replace(s, IfMarker(key), ""), EndIf)| ==>
              !OccursAt(Pieces(Replace(s, IfMarker(key), ""), EndIf)[k], EndIf, i)
  {
    ReplaceIsJoinOfPieces(s, IfMarker(key), "");
    ReplaceIsJoinOfPieces(Replace(s, IfMarker(key), ""), EndIf, "");
  }

  /** A text that does not start with `pat` keeps its first character. */
  lemma {:induction false} ReplaceSkip(s: string, pat: string, repl: string)
    requires |pat| > 0 && |s| > 0 && !OccursAt(s, pat, 0)
    ensures Replace(s, pat, repl) == [s[0]] + Replace(s[1..], pat, repl)
  {
  }

  /** A prefix in which no `pat` starts is kept as it is. */
  lemma {:induction false} ReplaceKeepsPrefix(x: string, y: string, pat: string, repl: string)
    requires |pat| > 0
    requires forall j: nat :: j < |x| ==> !OccursAt(x + y, pat, j)
    ensures Replace(x + y, pat, repl) == x + Replace(y, pat, repl)
    decreases |x|
  {
    if |x| > 0 {
      var x' := x[1..];
      PrefixFreeTail(x, y, pat);
      ReplaceKeepsPrefix(x', y, pat, repl);
      ReplaceSkip(x + y, pat, repl);
      assert x == [x[0]] + x';
    } else {
      assert x + y == y;
    }
  }

  /**
   * Cutting a pattern out of the middle of its own halves recreates it: when
   * `x + y == pat` and no occurrence starts inside `x`, stripping `pat` from
   * `x + pat + y` gives `pat` again.
   */
  lemma {:induction false} ReplaceCanSplice(x: string, y: string, pat: string)
    requires |x| > 0 && x + y == pat
    requires forall j: nat :: j < |x| ==> !OccursAt(x + (pat + y), pat, j)
    ensures Replace(x + pat + y, pat, "") == pat
  {
    assert x + pat + y == x + (pat + y);
    ReplaceKeepsPrefix(x, pat + y, pat, "");
    assert (pat + y)[..|pat|] == pat && (pat + y)[|pat|..] == y;
    assert Replace(pat + y, pat, "") == Replace(y, pat, "");
  }

  /**
   * Stripping every `{% endif %}` in one `replace` pass can splice a new one
   * together, so a truthy key does not always leave the text free of endifs:
   * `{% en{% endif %}dif %}` becomes `{% endif %}`.
   */
  lemma {:induction false} EndIfCanReappear(x: string, y: string)
    requires x == EndIf[..5] && y == EndIf[5..]
    ensures Replace(x + EndIf + y, EndIf, "") == EndIf
  {
    var t := x + (EndIf + y);
    assert x + y == EndIf;
    forall j: nat | j < |x| ensures !OccursAt(t, EndIf, j) {
      if j == 0 {
        assert t[5] != EndIf[5];
      } else {
        assert t[j] != EndIf[0];
      }
    }
    ReplaceCanSplice(x, y, EndIf);
  }
}
