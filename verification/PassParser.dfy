// OMP_TASKGRAPH_OPT: the list of command-graph passes, cut up in place by strtok.
module PassParser {
  import opened Wrappers

  datatype Pass = CopyFuse | ReduceNode | TransitiveReduction | ProgFuse | Jit | Sequence | Batch

  datatype Verdict = Passes(chosen: set<Pass>) | UnknownPass(token: string) | FuseWithoutJit

  const DEFAULT_PASSES: set<Pass> := {ReduceNode, TransitiveReduction, Sequence}

  const NUL: char := '\0'

  predicate IsSeparator(c: char) {
    c == ',' || c == ' ' || c == '\t' || c == '\n' || c == '\r'
  }

  function Name(p: Pass): string {
    match p
    case CopyFuse => "copy-fuse"
    case ReduceNode => "reduce-node"
    case TransitiveReduction => "transitive-reduction"
    case ProgFuse => "prog-fuse"
    case Jit => "jit"
    case Sequence => "sequence"
    case Batch => "batch"
  }

  function FromName(token: string): Option<Pass> {
    if token == "copy-fuse" then Some(CopyFuse)
    else if token == "reduce-node" then Some(ReduceNode)
    else if token == "transitive-reduction" then Some(TransitiveReduction)
    else if token == "prog-fuse" then Some(ProgFuse)
    else if token == "jit" then Some(Jit)
    else if token == "sequence" then Some(Sequence)
    else if token == "batch" then Some(Batch)
    else None
  }

  predicate Known(token: string) {
    token == "none" || FromName(token).Some?
  }

  predicate Admissible(passes: set<Pass>) {
    ProgFuse in passes ==> Jit in passes
  }

  // Comma, space, tab, newline and carriage return separate; nothing else does.
  lemma SeparatorsAre(c: char)
    ensures IsSeparator(c) <==> c in ", \t\n\r"
  {
  }

  lemma NamesAre()
    ensures FromName("copy-fuse") == Some(CopyFuse) && FromName("reduce-node") == Some(ReduceNode)
    ensures FromName("transitive-reduction") == Some(TransitiveReduction) && FromName("prog-fuse") == Some(ProgFuse)
    ensures FromName("jit") == Some(Jit) && FromName("sequence") == Some(Sequence) && FromName("batch") == Some(Batch)
    ensures Known("none") && FromName("none") == None && FromName("") == None
  {
  }

  // ---- tokens ----

  // Length of the separator-free run s starts with.
  function Span(s: string): (n: nat)
    ensures n <= |s|
    ensures forall k :: 0 <= k < n ==> !IsSeparator(s[k])
    ensures n < |s| ==> IsSeparator(s[n])
  {
    if s == "" || IsSeparator(s[0]) then 0 else 1 + Span(s[1..])
  }

  lemma {:induction false} SpanIs(s: string, n: nat)
    requires n <= |s| && (forall k :: 0 <= k < n ==> !IsSeparator(s[k])) && (n < |s| ==> IsSeparator(s[n]))
    ensures Span(s) == n
  {
    if n > 0 {
      assert forall k :: 0 <= k < n - 1 ==> s[1..][k] == s[k + 1];
      SpanIs(s[1..], n - 1);
    }
  }

  function Tokens(s: string): (tokens: seq<string>)
    decreases |s|
  {
    if s == "" then []
    else if IsSeparator(s[0]) then Tokens(s[1..])
    else [s[..Span(s)]] + Tokens(s[Span(s)..])
  }

  // s[i..j] is separator-free, not empty, and cannot be extended either way.
  predicate MaximalToken(s: string, i: nat, j: nat) {
    && i < j <= |s|
    && (forall k :: i <= k < j ==> !IsSeparator(s[k]))
    && (i == 0 || IsSeparator(s[i - 1]))
    && (j == |s| || IsSeparator(s[j]))
  }

  lemma {:induction false} TokensAreMaximal(s: string, t: string)
    requires t in Tokens(s)
    ensures exists i: nat, j: nat :: MaximalToken(s, i, j) && t == s[i..j]
    decreases |s|
  {
    var n := Span(s);
    if !IsSeparator(s[0]) && t == s[..n] {
      assert MaximalToken(s, 0, n) && s[0..n] == s[..n];
    } else {
      var d := if IsSeparator(s[0]) then 1 else n;
      TokensAreMaximal(s[d..], t);
      var i: nat, j: nat :| MaximalToken(s[d..], i, j) && t == s[d..][i..j];
      MaximalLater(s, d, i, j);
    }
  }

  // Past a separator, or up to one, tokens of the rest are tokens of the whole.
  lemma MaximalLater(s: string, d: nat, i: nat, j: nat)
    requires d <= |s| && (d < |s| ==> d > 0 && (IsSeparator(s[d - 1]) || IsSeparator(s[d])))
    requires MaximalToken(s[d..], i, j)
    ensures MaximalToken(s, d + i, d + j) && s[d + i..d + j] == s[d..][i..j]
  {
    var r := s[d..];
    assert forall k :: 0 <= k < |r| ==> r[k] == s[d + k];
    assert !IsSeparator(r[i]);
    forall k | d + i <= k < d + j ensures !IsSeparator(s[k]) {
      assert s[k] == r[k - d];
    }
  }

  lemma MaximalEarlier(s: string, d: nat, i: nat, j: nat)
    requires d <= i && MaximalToken(s, i, j)
    ensures MaximalToken(s[d..], i - d, j - d) && s[d..][i - d..j - d] == s[i..j]
  {
    var r := s[d..];
    forall k | i - d <= k < j - d ensures !IsSeparator(r[k]) {
      assert r[k] == s[d + k];
    }
  }

  lemma {:induction false} MaximalAreTokens(s: string, i: nat, j: nat)
    requires MaximalToken(s, i, j)
    ensures s[i..j] in Tokens(s)
    decreases |s|
  {
    var n := Span(s);
    if i == 0 {
      assert !IsSeparator(s[0]);
      SpanIs(s, j);
      assert s[i..j] == s[..n];
    } else {
      var d := if IsSeparator(s[0]) then 1 else n;
      assert n < i;
      MaximalEarlier(s, d, i, j);
      MaximalAreTokens(s[d..], i - d, j - d);
    }
  }

  // ---- what a list of tokens means ----

  // The first token that is no pass is fatal; then fusing without compiling is.
  function Judge(tokens: seq<string>, passes: set<Pass>): Verdict {
    if tokens == [] then
      if Admissible(passes) then Passes(passes) else FuseWithoutJit
    else if tokens[0] == "none" then Judge(tokens[1..], passes)
    else match FromName(tokens[0])
      case None => UnknownPass(tokens[0])
      case Some(p) => Judge(tokens[1..], passes + {p})
  }

  function Named(tokens: seq<string>): set<Pass> {
    set p: Pass | Name(p) in tokens
  }

  lemma NamesAreInverse(token: string, p: Pass)
    ensures FromName(token) == Some(p) <==> token == Name(p)
    ensures Name(p) != "none" && Name(p) != ""
    ensures forall k :: 0 <= k < |Name(p)| ==> !IsSeparator(Name(p)[k])
  {
  }

  lemma {:induction false} JudgeFrom(tokens: seq<string>, passes: set<Pass>)
    requires forall t :: t in tokens ==> Known(t)
    ensures Judge(tokens, passes)
         == if Admissible(passes + Named(tokens)) then Passes(passes + Named(tokens)) else FuseWithoutJit
    decreases |tokens|
  {
    if tokens == [] {
      assert passes + Named(tokens) == passes;
    } else {
      var rest := tokens[1..];
      assert tokens == [tokens[0]] + rest;
      assert Known(tokens[0]) && forall t :: t in rest ==> t in tokens;
      var grown := if tokens[0] == "none" then passes else passes + {FromName(tokens[0]).value};
      JudgeFrom(rest, grown);
      forall p: Pass ensures p in passes + Named(tokens) <==> p in grown + Named(rest) {
        NamesAreInverse(tokens[0], p);
      }
      assert passes + Named(tokens) == grown + Named(rest);
    }
  }

  lemma {:induction false} JudgeUnknown(tokens: seq<string>, passes: set<Pass>, n: nat)
    requires n < |tokens| && !Known(tokens[n]) && forall i :: 0 <= i < n ==> Known(tokens[i])
    ensures Judge(tokens, passes) == UnknownPass(tokens[n])
    decreases |tokens|
  {
    if n > 0 {
      assert Known(tokens[0]);
      var grown := if tokens[0] == "none" then passes else passes + {FromName(tokens[0]).value};
      JudgeUnknown(tokens[1..], grown, n - 1);
    }
  }

  // The index of the first token that names nothing, if there is one.
  lemma FirstUnknown(tokens: seq<string>) returns (n: nat)
    ensures n <= |tokens| && (forall i :: 0 <= i < n ==> Known(tokens[i]))
    ensures n < |tokens| ==> !Known(tokens[n])
  {
    n := 0;
    while n < |tokens| && Known(tokens[n])
      invariant n <= |tokens| && forall i :: 0 <= i < n ==> Known(tokens[i])
    {
      n := n + 1;
    }
  }

  // Accepted exactly when every token is known and prog-fuse comes with jit, and then
  // the result is the set of the named passes.
  lemma VerdictMeaning(tokens: seq<string>)
    ensures var v := Judge(tokens, {});
      && (v.Passes? <==> (forall t :: t in tokens ==> Known(t)) && Admissible(Named(tokens)))
      && (v.Passes? ==> v.chosen == Named(tokens))
      && (v.UnknownPass? <==> exists t :: t in tokens && !Known(t))
      && (v.UnknownPass? ==> exists n :: 0 <= n < |tokens| && tokens[n] == v.token && !Known(v.token)
                                         && forall i :: 0 <= i < n ==> Known(tokens[i]))
  {
    var n := FirstUnknown(tokens);
    if n < |tokens| {
      JudgeUnknown(tokens, {}, n);
      assert tokens[n] in tokens;
    } else {
      JudgeFrom(tokens, {});
      assert {} + Named(tokens) == Named(tokens);
    }
  }

  // Order, repetition, "none" and the separators used make no difference.
  lemma OnlyTheSetMatters(s: string, t: string)
    requires forall w :: w != "none" ==> (w in Tokens(s) <==> w in Tokens(t))
    ensures var (v, w) := (Judge(Tokens(s), {}), Judge(Tokens(t), {}));
      v == w || (v.UnknownPass? && w.UnknownPass?)
  {
    VerdictMeaning(Tokens(s));
    VerdictMeaning(Tokens(t));
    forall p: Pass ensures p in Named(Tokens(s)) <==> p in Named(Tokens(t)) {
      NamesAreInverse(Name(p), p);
    }
    assert Named(Tokens(s)) == Named(Tokens(t));
    assert forall w :: w in Tokens(s) && !Known(w) ==> w in Tokens(t);
    assert forall w :: w in Tokens(t) && !Known(w) ==> w in Tokens(s);
  }

  // ---- printing ----

  predicate AllSeparators(s: string) {
    forall k :: 0 <= k < |s| ==> IsSeparator(s[k])
  }

  predicate IsWord(w: string) {
    w != "" && forall k :: 0 <= k < |w| ==> !IsSeparator(w[k])
  }

  // Words, each followed by its separators.
  function Print(words: seq<string>, gaps: seq<string>): string
    requires |words| == |gaps|
  {
    if words == [] then "" else words[0] + gaps[0] + Print(words[1..], gaps[1..])
  }

  lemma {:induction false} SkipSeparators(gap: string, s: string)
    requires AllSeparators(gap)
    ensures Tokens(gap + s) == Tokens(s)
    decreases |gap|
  {
    if gap == "" {
      assert gap + s == s;
    } else {
      assert (gap + s)[0] == gap[0];
      assert (gap + s)[1..] == gap[1..] + s;
      SkipSeparators(gap[1..], s);
    }
  }

  lemma TakeWord(w: string, s: string)
    requires IsWord(w) && (s == "" || IsSeparator(s[0]))
    ensures Tokens(w + s) == [w] + Tokens(s)
  {
    var n := Span(w + s);
    assert (w + s)[0] == w[0];
    SpanIs(w + s, |w|);
    assert (w + s)[..n] == w && (w + s)[n..] == s;
  }

  lemma OnlySeparators(s: string)
    requires AllSeparators(s)
    ensures Tokens(s) == []
  {
    SkipSeparators(s, "");
    assert s + "" == s;
  }

  // The first token and what remains after it and the separator that ends it.
  lemma FirstToken(s: string, i: nat, j: nat)
    requires i < j <= |s|
    requires forall k :: 0 <= k < i ==> IsSeparator(s[k])
    requires forall k :: i <= k < j ==> !IsSeparator(s[k])
    requires j < |s| ==> IsSeparator(s[j])
    ensures Tokens(s) == [s[i..j]] + Tokens(s[j..])
    ensures j < |s| ==> Tokens(s[j..]) == Tokens(s[j + 1..])
  {
    hide Tokens;
    SkipSeparators(s[..i], s[i..]);
    assert s[..i] + s[i..] == s;
    TakeWord(s[i..j], s[j..]);
    assert s[i..j] + s[j..] == s[i..];
    if j < |s| {
      SkipSeparators([s[j]], s[j + 1..]);
      assert [s[j]] + s[j + 1..] == s[j..];
    }
  }

  lemma {:induction false} TokensOfPrinted(words: seq<string>, gaps: seq<string>)
    requires |words| == |gaps|
    requires forall i :: 0 <= i < |words| ==> IsWord(words[i]) && AllSeparators(gaps[i])
    requires forall i :: 0 <= i < |words| - 1 ==> gaps[i] != ""
    ensures Tokens(Print(words, gaps)) == words
    decreases |words|
  {
    if words != [] {
      var rest := Print(words[1..], gaps[1..]);
      TokensOfPrinted(words[1..], gaps[1..]);
      SkipSeparators(gaps[0], rest);
      if gaps[0] == "" {
        assert words[1..] == [] && gaps[0] + rest == "";
      }
      TakeWord(words[0], gaps[0] + rest);
      assert words[0] + gaps[0] + rest == words[0] + (gaps[0] + rest);
    }
  }

  // Any listing of an admissible set, between any separators, parses back to it; a
  // listing of any other set is refused.
  lemma RoundTrip(passes: set<Pass>, words: seq<string>, lead: string, gaps: seq<string>)
    requires |words| == |gaps| && AllSeparators(lead)
    requires forall i :: 0 <= i < |words| ==> AllSeparators(gaps[i])
    requires forall i :: 0 <= i < |words| - 1 ==> gaps[i] != ""
    requires forall p: Pass :: p in passes <==> Name(p) in words
    requires forall w :: w in words ==> Known(w)
    ensures Judge(Tokens(lead + Print(words, gaps)), {})
         == if Admissible(passes) then Passes(passes) else FuseWithoutJit
  {
    forall i | 0 <= i < |words| ensures IsWord(words[i]) {
      assert words[i] in words;
      if FromName(words[i]).Some? {
        NamesAreInverse(words[i], FromName(words[i]).value);
      }
    }
    TokensOfPrinted(words, gaps);
    SkipSeparators(lead, Print(words, gaps));
    JudgeFrom(words, {});
    assert {} + Named(words) == passes;
  }

  // ---- the code ----

  predicate CString(s: string) {
    forall k :: 0 <= k < |s| ==> s[k] != NUL
  }

  // Buffer b holds a C string from n on.
  predicate HoldsFrom(b: string, n: nat) {
    n < |b| && b[|b| - 1] == NUL && CString(b[n..|b| - 1])
  }

  lemma NulIsTheEnd(b: string, n: nat, i: nat)
    requires HoldsFrom(b, n) && n <= i < |b|
    ensures b[i] == NUL <==> i == |b| - 1
    ensures HoldsFrom(b, i) && b[n..|b| - 1][i - n..] == b[i..|b| - 1]
  {
    var s, r := b[n..|b| - 1], b[i..|b| - 1];
    assert i < |b| - 1 ==> s[i - n] == b[i];
    assert forall k :: 0 <= k < |r| ==> r[k] == s[i - n + k];
  }

  lemma SliceOfSlice(b: string, from: nat, to: nat, i: nat, j: nat)
    requires from <= to <= |b| && i <= j <= to - from
    ensures b[from..to][i..j] == b[from + i..from + j]
  {
    var s := b[from..to];
    assert forall k :: 0 <= k < |s| ==> s[k] == b[from + k];
    forall k | 0 <= k < j - i ensures s[i..j][k] == b[from + i..from + j][k] {
      assert s[i..j][k] == s[i + k];
    }
  }

  lemma NoToken(b: string, n: nat, start: nat)
    requires HoldsFrom(b, n) && n <= start < |b| && b[start] == NUL
    requires forall k :: n <= k < start ==> IsSeparator(b[k])
    ensures start == |b| - 1 && Tokens(b[n..|b| - 1]) == []
  {
    hide IsSeparator, Tokens, HoldsFrom;
    NulIsTheEnd(b, n, start);
    OnlySeparators(b[n..|b| - 1]);
  }

  lemma CutToken(b: string, n: nat, start: nat, end: nat)
    requires HoldsFrom(b, n) && n <= start <= end < |b| && b[start] != NUL && !IsSeparator(b[start])
    requires forall k :: n <= k < start ==> IsSeparator(b[k])
    requires forall k :: start <= k < end ==> !IsSeparator(b[k])
    requires b[end] == NUL || IsSeparator(b[end])
    ensures b[end] == NUL <==> end == |b| - 1
    ensures HoldsFrom(b, end) && (b[end] != NUL ==> HoldsFrom(b, end + 1))
    ensures Tokens(b[n..|b| - 1])
         == [b[start..end]] + Tokens(b[if b[end] == NUL then end else end + 1..|b| - 1])
  {
    hide IsSeparator, Tokens, HoldsFrom;
    assert start < end;
    var s, i, j := b[n..|b| - 1], start - n, end - n;
    SliceOfSlice(b, n, |b| - 1, i, j);
    NulIsTheEnd(b, n, start);
    NulIsTheEnd(b, n, end);
    if b[end] != NUL { NulIsTheEnd(b, n, end + 1); }
    assert forall k :: 0 <= k < |s| ==> s[k] == b[n + k];
    FirstToken(s, i, j);
  }

  // The duplicated value and the position strtok keeps between calls.
  class Tokenizer {
    const buf: array<char>
    var next: nat

    // What strtok has still to look at, up to the final NUL, has not been written to.
    ghost predicate Valid()
      reads this, buf
    {
      HoldsFrom(buf[..], next)
    }

    ghost function Rest(): string
      requires Valid()
      reads this, buf
    {
      buf[..][next..buf.Length - 1]
    }

    constructor (value: string)
      requires CString(value)
      ensures Valid() && Rest() == value && fresh(buf)
    {
      var dup := new char[|value| + 1](i requires 0 <= i <= |value| => if i < |value| then value[i] else NUL);
      buf, next := dup, 0;
      new;
      assert buf[..|value|] == value;
    }

    // strspn and strcspn: the end of the run of separators, or of other characters.
    method RunEnd(start: nat, separators: bool) returns (end: nat)
      requires start < buf.Length && buf[buf.Length - 1] == NUL
      ensures start <= end < buf.Length
      ensures forall k :: start <= k < end ==> IsSeparator(buf[k]) == separators
      ensures buf[end] == NUL || IsSeparator(buf[end]) != separators
    {
      hide IsSeparator;
      end := start;
      while buf[end] != NUL && IsSeparator(buf[end]) == separators
        invariant start <= end < buf.Length
        invariant forall k :: start <= k < end ==> IsSeparator(buf[k]) == separators
        decreases buf.Length - end
      {
        end := end + 1;
      }
    }

    // One strtok call: skips separators, then cuts the buffer after the next token by
    // overwriting one separator with NUL. Nothing else in the buffer changes.
    method Next() returns (token: Option<string>)
      requires Valid()
      modifies this`next, buf
      ensures Valid()
      ensures old(Tokens(Rest())) == [] ==> token == None
      ensures old(Tokens(Rest())) != [] ==>
        token == Some(old(Tokens(Rest()))[0]) && Tokens(Rest()) == old(Tokens(Rest()))[1..]
      ensures token.Some? ==> |Rest()| < |old(Rest())|
      ensures forall k :: 0 <= k < buf.Length ==>
        buf[k] == old(buf[k]) || (buf[k] == NUL && IsSeparator(old(buf[k])))
    {
      hide Tokens, Span, IsSeparator;
      ghost var b := buf[..];
      var start := RunEnd(next, true);
      if buf[start] == NUL {
        NoToken(b, next, start);
        next := start;
        return None;
      }
      var end := RunEnd(start, false);
      CutToken(b, next, start, end);
      token := Some(buf[start..end]);
      if buf[end] == NUL {
        next := end;
      } else {
        buf[end] := NUL;
        next := end + 1;
        assert Rest() == b[end + 1..|b| - 1];
      }
    }
  }

  // Unset means the default three; a set value means what its tokens mean.
  method ParseTaskgraphOpt(value: Option<string>) returns (r: Verdict)
    requires value.Some? ==> CString(value.value)
    ensures value == None ==> r == Passes({ReduceNode, TransitiveReduction, Sequence})
    ensures value.Some? ==> r == Judge(Tokens(value.value), {})
    ensures r.Passes? ==> Admissible(r.chosen)
  {
    if value == None {
      return Passes(DEFAULT_PASSES);
    }
    ghost var all := Tokens(value.value);
    var passes: set<Pass> := {};
    var tokenizer := new Tokenizer(value.value);
    var token := tokenizer.Next();
    ghost var left := if token == None then [] else all;
    while token.Some?
      invariant tokenizer.Valid() && fresh(tokenizer) && fresh(tokenizer.buf)
      invariant token == None ==> left == []
      invariant token.Some? ==> left != [] && left[0] == token.value && left[1..] == Tokens(tokenizer.Rest())
      invariant Judge(left, passes) == Judge(all, {})
      decreases token.Some?, |tokenizer.Rest()|
    {
      if token.value != "none" {
        var pass := FromName(token.value);
        if pass == None {
          return UnknownPass(token.value);
        }
        passes := passes + {pass.value};
      }
      left := left[1..];
      token := tokenizer.Next();
    }
    if ProgFuse in passes && Jit !in passes {
      return FuseWithoutJit;
    }
    return Passes(passes);
  }
}
