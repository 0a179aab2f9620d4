/** tokens.c: cutting a command line into tokens. */
module Tokens {
  datatype Class = Space | Operator | Word

  predicate IsSpace(c: char) {
    c == ' ' || c == '\t' || c == '\n' || c == 11 as char || c == 12 as char || c == '\r'
  }

  predicate IsOp(c: char) { c == '&' || c == '<' || c == '>' || c == '|' || c == ';' }

  function ClassOf(c: char): Class {
    if IsSpace(c) then Space else if IsOp(c) then Operator else Word
  }

  /** All characters of line[lo..hi] are of class k. */
  predicate Same(line: string, lo: nat, hi: nat, k: Class) {
    lo <= hi <= |line| && forall j :: lo <= j < hi ==> ClassOf(line[j]) == k
  }

  /** line[lo..hi] is a maximal run of operator or of word characters. */
  predicate MaximalRun(line: string, lo: nat, hi: nat) {
    && lo < hi <= |line|
    && ClassOf(line[lo]) != Space
    && Same(line, lo, hi, ClassOf(line[lo]))
    && (lo > 0 ==> ClassOf(line[lo - 1]) != ClassOf(line[lo]))
    && (hi < |line| ==> ClassOf(line[hi]) != ClassOf(line[lo]))
  }

  /** The end of the run of class k that goes on from i. */
  function RunEnd(line: string, i: nat, k: Class): (e: nat)
    requires i <= |line|
    ensures i <= e && Same(line, i, e, k)
    ensures e < |line| ==> ClassOf(line[e]) != k
    decreases |line| - i
  {
    if i < |line| && ClassOf(line[i]) == k then RunEnd(line, i + 1, k) else i
  }

  datatype Span = Span(lo: nat, hi: nat)

  /** Where the tokens from position i on lie. */
  function Spans(line: string, i: nat): seq<Span>
    requires i <= |line|
    decreases |line| - i
  {
    if i == |line| then []
    else if ClassOf(line[i]) == Space then Spans(line, i + 1)
    else
      var e := RunEnd(line, i + 1, ClassOf(line[i]));
      [Span(i, e)] + Spans(line, e)
  }

  function TokensFrom(line: string, i: nat): seq<string>
    requires i <= |line|
    decreases |line| - i
  {
    if i == |line| then []
    else if ClassOf(line[i]) == Space then TokensFrom(line, i + 1)
    else
      var e := RunEnd(line, i + 1, ClassOf(line[i]));
      [line[i..e]] + TokensFrom(line, e)
  }

  // ----- the code

  /** add_op: copy the operator run that starts at `start`. */
  method AddOp(sv: seq<string>, line: string, start: nat) returns (sv': seq<string>, n: nat)
    requires start <= |line|
    ensures start + n == RunEnd(line, start, Operator) && sv' == sv + [line[start..start + n]]
  {
    n := 0;
    while n + start < |line|
      invariant n + start <= |line|
      invariant RunEnd(line, start + n, Operator) == RunEnd(line, start, Operator)
    {
      if IsOp(line[n + start]) {
        n := n + 1;
      } else {
        break;
      }
    }
    sv' := sv + [line[start..start + n]];
  }

  /** add_token: copy the word that starts at `start`. */
  method AddToken(sv: seq<string>, line: string, start: nat) returns (sv': seq<string>, n: nat)
    requires start <= |line|
    ensures start + n == RunEnd(line, start, Word) && sv' == sv + [line[start..start + n]]
  {
    n := 0;
    while n + start < |line|
      invariant n + start <= |line|
      invariant RunEnd(line, start + n, Word) == RunEnd(line, start, Word)
    {
      if !(IsOp(line[n + start]) || IsSpace(line[n + start])) {
        n := n + 1;
      } else {
        break;
      }
    }
    sv' := sv + [line[start..start + n]];
  }

  method Tokenize(line: string) returns (sv: seq<string>)
    ensures sv == TokensFrom(line, 0)
  {
    hide TokensFrom, RunEnd, ClassOf;
    sv := [];
    var ii := 0;
    while ii < |line|
      invariant ii <= |line| && sv + TokensFrom(line, ii) == TokensFrom(line, 0)
      decreases |line| - ii
    {
      var n := 1;
      TokensStep(line, ii);
      if IsSpace(line[ii]) {
      } else if IsOp(line[ii]) {
        sv, n := AddOp(sv, line, ii);
      } else {
        sv, n := AddToken(sv, line, ii);
      }
      ii := ii + n;
    }
    NoTokens(line);
  }

  /** What the three branches of tokenize make of the character at i. */
  lemma TokensStep(line: string, i: nat)
    requires i < |line|
    ensures IsSpace(line[i]) ==> TokensFrom(line, i) == TokensFrom(line, i + 1)
    ensures !IsSpace(line[i]) ==>
              var e := RunEnd(line, i, if IsOp(line[i]) then Operator else Word);
              i < e && TokensFrom(line, i) == [line[i..e]] + TokensFrom(line, e)
  {
  }

  // ----- tokens are the maximal runs, in order, and nothing is missed

  /** From i on, the spans are the maximal runs in order, with only spaces before, between
      and after them. */
  ghost predicate Runs(line: string, i: nat, spans: seq<Span>)
    decreases |spans|
  {
    && i <= |line|
    && if spans == [] then Same(line, i, |line|, Space)
       else && Same(line, i, spans[0].lo, Space) && MaximalRun(line, spans[0].lo, spans[0].hi)
            && Runs(line, spans[0].hi, spans[1..])
  }

  lemma RunsSkip(line: string, i: nat, rest: seq<Span>)
    requires i < |line| && ClassOf(line[i]) == Space && Runs(line, i + 1, rest)
    ensures Runs(line, i, rest)
  {
    hide MaximalRun, ClassOf;
  }

  lemma {:induction false} SpansAreRuns(line: string, i: nat)
    requires i <= |line| && (0 < i < |line| && ClassOf(line[i]) != Space ==> ClassOf(line[i - 1]) != ClassOf(line[i]))
    ensures Runs(line, i, Spans(line, i))
    decreases |line| - i
  {
    hide ClassOf;
    if i < |line| {
      if ClassOf(line[i]) == Space {
        SpansAreRuns(line, i + 1);
        RunsSkip(line, i, Spans(line, i + 1));
      } else {
        var e := RunEnd(line, i + 1, ClassOf(line[i]));
        SpansAreRuns(line, e);
        assert Spans(line, i)[1..] == Spans(line, e);
      }
    }
  }

  lemma {:induction false} TokensOfSpans(line: string, i: nat)
    requires i <= |line|
    ensures |TokensFrom(line, i)| == |Spans(line, i)|
    ensures forall k :: 0 <= k < |Spans(line, i)| ==>
              var p := Spans(line, i)[k]; p.lo <= p.hi <= |line| && TokensFrom(line, i)[k] == line[p.lo..p.hi]
    decreases |line| - i
  {
    if i < |line| {
      TokensOfSpans(line, if ClassOf(line[i]) == Space then i + 1 else RunEnd(line, i + 1, ClassOf(line[i])));
    }
  }

  // ----- tokenizing the tokens again

  /** A string that can be a token. */
  predicate Token(w: string) {
    w != "" && ClassOf(w[0]) != Space && Same(w, 0, |w|, ClassOf(w[0]))
  }

  function Joined(ts: seq<string>): string {
    if ts == [] then "" else if |ts| == 1 then ts[0] else ts[0] + " " + Joined(ts[1..])
  }

  lemma {:induction false} RunEndShift(u: string, v: string, i: nat, k: Class)
    requires i <= |v|
    ensures RunEnd(u + v, |u| + i, k) == |u| + RunEnd(v, i, k)
    decreases |v| - i
  {
    if i < |v| && ClassOf(v[i]) == k { RunEndShift(u, v, i + 1, k); }
  }

  lemma TokenAt(line: string, i: nat)
    requires i < |line| && ClassOf(line[i]) != Space
    ensures var e := RunEnd(line, i + 1, ClassOf(line[i])); TokensFrom(line, i) == [line[i..e]] + TokensFrom(line, e)
  {
  }

  lemma SpaceAt(line: string, i: nat)
    requires i < |line| && ClassOf(line[i]) == Space
    ensures TokensFrom(line, i) == TokensFrom(line, i + 1)
  {
  }

  lemma SliceShift(u: string, v: string, i: nat, e: nat)
    requires i <= e <= |v|
    ensures (u + v)[|u| + i..|u| + e] == v[i..e]
  {
  }

  lemma NoTokens(line: string)
    ensures TokensFrom(line, |line|) == []
  {
  }

  lemma {:induction false} TokensShift(u: string, v: string, i: nat)
    requires i <= |v|
    ensures TokensFrom(u + v, |u| + i) == TokensFrom(v, i)
    decreases |v| - i
  {
    hide TokensFrom, ClassOf, RunEnd;
    if i == |v| {
      NoTokens(v);
      NoTokens(u + v);
    } else {
      assert (u + v)[|u| + i] == v[i];
      if ClassOf(v[i]) == Space {
        SpaceAt(v, i);
        SpaceAt(u + v, |u| + i);
        TokensShift(u, v, i + 1);
      } else {
        var e := RunEnd(v, i + 1, ClassOf(v[i]));
        TokenAt(v, i);
        TokenAt(u + v, |u| + i);
        RunEndShift(u, v, i + 1, ClassOf(v[i]));
        SliceShift(u, v, i, e);
        TokensShift(u, v, e);
      }
    }
  }

  lemma {:induction false} RunEndIs(line: string, i: nat, e: nat, k: Class)
    requires i <= e && Same(line, i, e, k) && (e < |line| ==> ClassOf(line[e]) != k)
    ensures RunEnd(line, i, k) == e
    decreases e - i
  {
    if i < e { RunEndIs(line, i + 1, e, k); }
  }

  /** Every list of tokens survives being joined with spaces and cut again. */
  lemma {:induction false} Retokenize(ts: seq<string>)
    requires forall k :: 0 <= k < |ts| ==> Token(ts[k])
    ensures TokensFrom(Joined(ts), 0) == ts
  {
    if ts != [] {
      var w, line := ts[0], Joined(ts);
      var c := ClassOf(w[0]);
      assert Token(ts[0]);
      assert line[0] == w[0];
      if |ts| == 1 {
        RunEndIs(line, 1, |w|, c);
        assert TokensFrom(line, |w|) == [];
        assert line[0..|w|] == w;
      } else {
        var rest := Joined(ts[1..]);
        assert line == (w + " ") + rest;
        assert forall j :: 0 <= j < |w| ==> line[j] == w[j];
        assert line[|w|] == ' ';
        RunEndIs(line, 1, |w|, c);
        TokensShift(w + " ", rest, 0);
        Retokenize(ts[1..]);
        assert line[0..|w|] == w;
      }
    }
  }

  lemma {:induction false} TokensAreTokens(line: string, i: nat)
    requires i <= |line|
    ensures forall k :: 0 <= k < |TokensFrom(line, i)| ==> Token(TokensFrom(line, i)[k])
    decreases |line| - i
  {
    hide ClassOf;
    if i < |line| {
      if ClassOf(line[i]) == Space {
        TokensAreTokens(line, i + 1);
      } else {
        var e := RunEnd(line, i + 1, ClassOf(line[i]));
        TokensAreTokens(line, e);
        assert Token(line[i..e]);
      }
    }
  }

  // ----- which characters belong together

  /** A word holds none of the operator characters and none of the six that isspace knows; an
      operator holds nothing but operator characters. */
  predicate Plain(w: string) {
    w != "" && forall j :: 0 <= j < |w| ==> w[j] !in "&<>|; \t\n\r" && w[j] != 11 as char && w[j] != 12 as char
  }

  predicate Ops(w: string) { w != "" && forall j :: 0 <= j < |w| ==> w[j] in "&<>|;" }

  lemma TokenIs(w: string)
    ensures Token(w) <==> Plain(w) || Ops(w)
    ensures Plain(w) ==> forall j :: 0 <= j < |w| ==> ClassOf(w[j]) == Word
    ensures Ops(w) ==> forall j :: 0 <= j < |w| ==> ClassOf(w[j]) == Operator
  {
  }

  function Concat(ts: seq<string>): string {
    if ts == [] then "" else ts[0] + Concat(ts[1..])
  }

  /** The first token ends where the class changes. */
  lemma FirstToken(w: string, rest: string)
    requires w != "" && ClassOf(w[0]) != Space && forall j :: 0 <= j < |w| ==> ClassOf(w[j]) == ClassOf(w[0])
    requires rest != "" ==> ClassOf(rest[0]) != ClassOf(w[0])
    ensures TokensFrom(w + rest, 0) == [w] + TokensFrom(rest, 0)
  {
    hide TokensFrom, ClassOf, RunEnd;
    var line := w + rest;
    assert forall j :: 0 <= j < |w| ==> line[j] == w[j];
    RunEndIs(line, 1, |w|, ClassOf(w[0]));
    TokenAt(line, 0);
    TokensShift(w, rest, 0);
    assert line[0..|w|] == w;
  }

  /** Words and operators by turns need no spaces between them. */
  lemma {:induction false} CutUnspaced(ts: seq<string>)
    requires forall k :: 0 <= k < |ts| ==> Plain(ts[k]) || Ops(ts[k])
    requires forall k, l :: 0 <= k < |ts| && l == k + 1 < |ts| ==> (Plain(ts[k]) <==> Ops(ts[l]))
    ensures TokensFrom(Concat(ts), 0) == ts
  {
    hide Plain, Ops, TokensFrom, ClassOf;
    if ts == [] {
      NoTokens("");
    } else {
      TokenFacts(ts[0]);
      CutUnspaced(ts[1..]);
      if |ts| > 1 {
        assert Plain(ts[0]) <==> Ops(ts[1]);
        TurnsDiffer(ts[0], ts[1]);
        assert Concat(ts[1..])[0] == ts[1][0];
      }
      FirstToken(ts[0], Concat(ts[1..]));
    }
  }

  lemma TokenFacts(w: string)
    requires Plain(w) || Ops(w)
    ensures w != "" && ClassOf(w[0]) != Space && forall j :: 0 <= j < |w| ==> ClassOf(w[j]) == ClassOf(w[0])
  {
    TokenIs(w);
  }

  lemma TurnsDiffer(v: string, w: string)
    requires (Plain(v) || Ops(v)) && (Plain(w) || Ops(w)) && (Plain(v) <==> Ops(w))
    ensures v != "" && w != "" && ClassOf(v[0]) != ClassOf(w[0])
  {
    TokenIs(v);
    TokenIs(w);
  }

  /** What the tokenizer promises of any line: its tokens are exactly the maximal runs in
      order, every other character is a space, and joining them with spaces changes nothing. */
  lemma TokenizerCorrect(line: string)
    ensures var ts, spans := TokensFrom(line, 0), Spans(line, 0);
            && |ts| == |spans|
            && (forall k :: 0 <= k < |spans| ==>
                  spans[k].lo <= spans[k].hi <= |line| && ts[k] == line[spans[k].lo..spans[k].hi])
            && Runs(line, 0, spans)
            && TokensFrom(Joined(ts), 0) == ts
  {
    SpansAreRuns(line, 0);
    TokensOfSpans(line, 0);
    TokensAreTokens(line, 0);
    Retokenize(TokensFrom(line, 0));
  }
}

/** astree.c: splitting a token list by precedence. */
module Astree {
  function OpList(): seq<string> { [";", "&", "||", "&&", "|", ">", "<"] }

  /** parse returns 0 for an empty list. */
  datatype Tree = Null | Cmd(words: seq<string>) | Op(op: string, left: Tree, right: Tree)

  function Flatten(t: Tree): seq<string> {
    match t
    case Null => []
    case Cmd(words) => words
    case Op(op, l, r) => Flatten(l) + [op] + Flatten(r)
  }

  /** No operator of the first k in the list occurs. */
  predicate Free(words: seq<string>, k: nat)
    requires k <= 7
  {
    forall j :: 0 <= j < k ==> OpList()[j] !in words
  }

  /** Leaves hold no operator; at every node the operator is the first occurrence of the one
      that binds least in what the node spans. */
  ghost predicate Canonical(t: Tree) {
    match t
    case Null => true
    case Cmd(words) => words != [] && Free(words, 7)
    case Op(op, l, r) =>
      && Canonical(l) && Canonical(r)
      && exists k :: 0 <= k < 7 && Splits(op, l, r, k)
  }

  ghost predicate Splits(op: string, l: Tree, r: Tree, k: nat)
    requires k < 7
  {
    op == OpList()[k] && op !in Flatten(l) && Free(Flatten(l), k) && Free(Flatten(r), k)
  }

  method IndexOf(sv: seq<string>, item: string) returns (index: int)
    ensures index == -1 <==> item !in sv
    ensures index != -1 ==> 0 <= index < |sv| && sv[index] == item && item !in sv[..index]
  {
    for ii := 0 to |sv|
      invariant item !in sv[..ii]
    {
      if sv[ii] == item { return ii; }
    }
    assert sv[..|sv|] == sv;
    return -1;
  }

  method Parse(tokens: seq<string>) returns (t: Tree)
    ensures Flatten(t) == tokens && Canonical(t)
    decreases |tokens|
  {
    if |tokens| < 1 { return Null; }
    var list := OpList();
    for ii := 0 to 7
      invariant Free(tokens, ii)
    {
      var op := list[ii];
      var index := IndexOf(tokens, op);
      if index >= 0 {
        var left := Parse(tokens[..index]);
        var right := Parse(tokens[index + 1..]);
        assert tokens == tokens[..index] + [op] + tokens[index + 1..];
        assert Splits(op, left, right, ii);
        return Op(op, left, right);
      }
    }
    return Cmd(tokens);
  }

  /** The lists before and after the first occurrence of an element are determined. */
  lemma FirstSplit(l1: seq<string>, r1: seq<string>, l2: seq<string>, r2: seq<string>, op: string)
    requires l1 + [op] + r1 == l2 + [op] + r2 && op !in l1 && op !in l2
    ensures l1 == l2 && r1 == r2
  {
    var s := l1 + [op] + r1;
    assert s == l2 + [op] + r2;
    assert forall i :: 0 <= i < |l1| ==> s[i] == l1[i] && l1[i] in l1;
    assert forall i :: 0 <= i < |l2| ==> s[i] == l2[i] && l2[i] in l2;
    assert s[|l1|] == op && s[|l2|] == op;
    assert l1 == s[..|l1|] && l2 == s[..|l2|];
    assert r1 == s[|l1| + 1..] && r2 == s[|l2| + 1..];
  }

  /** The operator at the root is determined by the tokens. */
  lemma RootLevel(op: string, l: Tree, r: Tree, k: nat, j: nat)
    requires k < 7 && Splits(op, l, r, k) && j < 7
    ensures OpList()[j] in Flatten(Op(op, l, r)) ==> j >= k
    ensures OpList()[k] in Flatten(Op(op, l, r))
  {
    var s := Flatten(Op(op, l, r));
    assert s[|Flatten(l)|] == op;
  }

  /** There is only one such tree for a token list. */
  lemma {:induction false} CanonicalUnique(t: Tree, u: Tree)
    requires Canonical(t) && Canonical(u) && Flatten(t) == Flatten(u)
    ensures t == u
  {
    if t.Op? { OpNotFree(t); }
    if u.Op? { OpNotFree(u); }
    if t.Op? && u.Op? {
      var k :| 0 <= k < 7 && Splits(t.op, t.left, t.right, k);
      var j :| 0 <= j < 7 && Splits(u.op, u.left, u.right, j);
      RootLevel(t.op, t.left, t.right, k, j);
      RootLevel(u.op, u.left, u.right, j, k);
      FirstSplit(Flatten(t.left), Flatten(t.right), Flatten(u.left), Flatten(u.right), t.op);
      CanonicalUnique(t.left, u.left);
      CanonicalUnique(t.right, u.right);
    }
  }

  lemma OpNotFree(t: Tree)
    requires Canonical(t) && t.Op?
    ensures Flatten(t) != [] && !Free(Flatten(t), 7)
  {
    var k :| 0 <= k < 7 && Splits(t.op, t.left, t.right, k);
    RootLevel(t.op, t.left, t.right, k, k);
  }

  /** The precedence of the shell's operators, weakest first: the root of the tree is the first
      of these that occurs in the command, split at its first occurrence; a command without
      operators is a leaf. */
  lemma Precedence(t: Tree)
    requires Canonical(t)
    ensures var ts := Flatten(t);
            if ts == [] then t == Null
            else if ";" in ts then t.Op? && t.op == ";"
            else if "&" in ts then t.Op? && t.op == "&"
            else if "||" in ts then t.Op? && t.op == "||"
            else if "&&" in ts then t.Op? && t.op == "&&"
            else if "|" in ts then t.Op? && t.op == "|"
            else if ">" in ts then t.Op? && t.op == ">"
            else if "<" in ts then t.Op? && t.op == "<"
            else t == Cmd(ts)
    ensures t.Op? ==> t.op !in Flatten(t.left)
  {
    var ops := OpList();
    assert ops[0] == ";" && ops[1] == "&" && ops[2] == "||" && ops[3] == "&&" && ops[4] == "|" && ops[5] == ">" && ops[6] == "<";
    if t.Op? {
      var k :| 0 <= k < 7 && Splits(t.op, t.left, t.right, k);
      OpNotFree(t);
      hide OpList;
      forall j: nat | j < 7
        ensures ops[j] in Flatten(t) ==> j >= k
      {
        RootLevel(t.op, t.left, t.right, k, j);
      }
      RootLevel(t.op, t.left, t.right, k, k);
    }
  }
}
