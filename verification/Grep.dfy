/** The matcher of grep.c against a declarative meaning of its patterns. A C string is the
    sequence of its characters; advancing a pointer drops the first one. */
module Grep {
  datatype Item = One(c: char) | Star(c: char)

  predicate Fits(c: char, x: char) { c == '.' || c == x }

  /** The strings an item stands for. */
  predicate Piece(item: Item, w: string) {
    match item
    case One(c) => |w| == 1 && Fits(c, w[0])
    case Star(c) => forall k :: 0 <= k < |w| ==> Fits(c, w[k])
  }

  /** A pattern, without leading ^ and final $, as items: a character before a * is starred. */
  function Items(body: string): seq<Item> {
    if body == "" then []
    else if |body| >= 2 && body[1] == '*' then [Star(body[0])] + Items(body[2..])
    else [One(body[0])] + Items(body[1..])
  }

  predicate Anchored(re: string) { re != "" && re[|re| - 1] == '$' }

  function Body(re: string): string { if Anchored(re) then re[..|re| - 1] else re }

  function Concat(pieces: seq<string>): string {
    if pieces == [] then "" else pieces[0] + Concat(pieces[1..])
  }

  predicate Pieces(items: seq<Item>, pieces: seq<string>) {
    |pieces| == |items| && forall k :: 0 <= k < |items| ==> Piece(items[k], pieces[k])
  }

  /** The text starts with strings of the items, one after the other; with `whole` they are
      all of it. */
  ghost predicate Starts(items: seq<Item>, whole: bool, text: string) {
    exists pieces :: Pieces(items, pieces) && Concat(pieces) <= text && (whole ==> Concat(pieces) == text)
  }

  ghost predicate StartsRe(re: string, text: string) { Starts(Items(Body(re)), Anchored(re), text) }

  /** What a pattern means: a match somewhere, or at the start if it begins with ^. */
  ghost predicate Means(re: string, text: string) {
    if re != "" && re[0] == '^' then StartsRe(re[1..], text)
    else exists i :: 0 <= i <= |text| && StartsRe(re, text[i..])
  }

  // ----- unfolding the meaning

  lemma StartsNone(whole: bool, text: string)
    ensures Starts([], whole, text) <==> (whole ==> text == "")
  {
    if whole ==> text == "" {
      var none: seq<string> := [];
      assert Pieces([], none) && Concat(none) == "";
    }
  }

  lemma StartsOne(c: char, rest: seq<Item>, whole: bool, text: string)
    ensures Starts([One(c)] + rest, whole, text) <==> text != "" && Fits(c, text[0]) && Starts(rest, whole, text[1..])
  {
    hide Pieces, Concat;
    var items := [One(c)] + rest;
    if Starts(items, whole, text) {
      var p :| Pieces(items, p) && Concat(p) <= text && (whole ==> Concat(p) == text);
      SplitFirst(One(c), rest, p, text);
    }
    if text != "" && Fits(c, text[0]) && Starts(rest, whole, text[1..]) {
      var p :| Pieces(rest, p) && Concat(p) <= text[1..] && (whole ==> Concat(p) == text[1..]);
      Prepend(One(c), rest, text[..1], p, text);
    }
  }

  lemma Prepend(item: Item, rest: seq<Item>, w: string, p: seq<string>, text: string)
    requires Piece(item, w) && Pieces(rest, p) && |w| <= |text| && w == text[..|w|] && Concat(p) <= text[|w|..]
    ensures Pieces([item] + rest, [w] + p) && Concat([w] + p) <= text
    ensures Concat(p) == text[|w|..] ==> Concat([w] + p) == text
  {
    assert ([w] + p)[1..] == p;
    assert text == text[..|w|] + text[|w|..];
    assert forall k :: 0 < k < |[item] + rest| ==> ([item] + rest)[k] == rest[k - 1] && ([w] + p)[k] == p[k - 1];
  }

  lemma PrefixSplit(a: string, b: string, text: string)
    requires a + b <= text
    ensures |a| <= |text| && a == text[..|a|] && b <= text[|a|..]
    ensures a + b == text ==> b == text[|a|..]
  {
  }

  lemma SplitFirst(item: Item, rest: seq<Item>, p: seq<string>, text: string)
    requires Pieces([item] + rest, p) && Concat(p) <= text
    ensures |p| > 0
    ensures var n := |p[0]|;
            && Piece(item, p[0]) && n <= |text| && p[0] == text[..n]
            && Pieces(rest, p[1..]) && Concat(p[1..]) <= text[n..]
            && (Concat(p) == text ==> Concat(p[1..]) == text[n..])
  {
    PrefixSplit(p[0], Concat(p[1..]), text);
    var items := [item] + rest;
    assert Piece(items[0], p[0]);
    hide Concat, Piece;
    assert forall k :: 0 <= k < |rest| ==> rest[k] == items[k + 1] && Piece(items[k + 1], p[k + 1]);
  }

  predicate Run(c: char, text: string, k: int) {
    0 <= k <= |text| && forall j :: 0 <= j < k ==> Fits(c, text[j])
  }

  lemma StartsStar(c: char, rest: seq<Item>, whole: bool, text: string)
    ensures Starts([Star(c)] + rest, whole, text) <==> exists k :: Run(c, text, k) && Starts(rest, whole, text[k..])
  {
    hide Pieces, Concat;
    var items := [Star(c)] + rest;
    if Starts(items, whole, text) {
      var p :| Pieces(items, p) && Concat(p) <= text && (whole ==> Concat(p) == text);
      SplitFirst(Star(c), rest, p, text);
      assert Run(c, text, |p[0]|) && Starts(rest, whole, text[|p[0]|..]);
    }
    if k :| Run(c, text, k) && Starts(rest, whole, text[k..]) {
      var p :| Pieces(rest, p) && Concat(p) <= text[k..] && (whole ==> Concat(p) == text[k..]);
      Prepend(Star(c), rest, text[..k], p, text);
    }
  }

  /** Dropping an item from a pattern keeps the rest of its reading. A final $ is never the
      second character of an item. */
  lemma BodyTail(re: string)
    requires re != ""
    ensures |re| >= 2 && re[1] == '*' ==>
              Anchored(re[2..]) == Anchored(re) && Items(Body(re)) == [Star(re[0])] + Items(Body(re[2..]))
    ensures !(|re| >= 2 && re[1] == '*') && re != "$" ==>
              Anchored(re[1..]) == Anchored(re) && Items(Body(re)) == [One(re[0])] + Items(Body(re[1..]))
    ensures re == "$" ==> Anchored(re) && Items(Body(re)) == []
  {
    if |re| >= 2 && re[1] == '*' {
      assert Body(re)[2..] == Body(re[2..]);
    } else if re != "$" {
      assert Body(re)[1..] == Body(re[1..]);
    }
  }

  // ----- what some patterns mean

  /** Any one character. */
  lemma MeansDot(text: string)
    ensures Means(".", text) <==> text != ""
  {
    OneItem('.');
    forall i | 0 <= i <= |text|
      ensures StartsRe(".", text[i..]) <==> i < |text|
    {
      StartsOne('.', [], false, text[i..]);
      if i < |text| { StartsNone(false, text[i..][1..]); }
    }
    if text != "" { assert StartsRe(".", text[0..]); }
  }

  /** A character that is none of the four special ones stands for itself, anywhere. */
  lemma MeansChar(c: char, text: string)
    requires c !in ".^$*"
    ensures Means([c], text) <==> c in text
  {
    OneItem(c);
    forall i | 0 <= i <= |text|
      ensures StartsRe([c], text[i..]) <==> i < |text| && text[i] == c
    {
      StartsOne(c, [], false, text[i..]);
      if i < |text| { StartsNone(false, text[i..][1..]); }
    }
    if i :| 0 <= i < |text| && text[i] == c { assert StartsRe([c], text[i..]); }
  }

  lemma OneItem(c: char)
    requires c != '$'
    ensures Items(Body([c])) == [One(c)] + [] && !Anchored([c])
  {
    assert [c][1..] == [];
    assert Items([]) == [];
  }

  /** From ^ to $, a starred character stands for any number of itself and nothing else. */
  lemma MeansStar(c: char, text: string)
    requires c !in ".^$*"
    ensures Means(['^', c, '*', '$'], text) <==> forall k :: 0 <= k < |text| ==> text[k] == c
  {
    var re := [c, '*', '$'];
    assert ['^', c, '*', '$'][1..] == re;
    BodyTail(re);
    assert re[2..] == "$" && Body("$") == "" && Items("") == [];
    StartsStar(c, [], true, text);
    forall k | 0 <= k <= |text|
      ensures Starts([], true, text[k..]) <==> k == |text|
    {
      StartsNone(true, text[k..]);
    }
    if forall k :: 0 <= k < |text| ==> text[k] == c { assert Run(c, text, |text|); }
  }

  // ----- the code

  method MatchHere(re: string, text: string) returns (found: bool)
    ensures found <==> StartsRe(re, text)
    decreases |re|, 0
  {
    hide Items, Starts;
    if re == "" {
      assert Items(Body(re)) == [] by { EmptyBody(); }
      StartsNone(false, text);
      return true;
    }
    BodyTail(re);
    if |re| >= 2 && re[1] == '*' {
      found := MatchStar(re[0], re[2..], text);
      return;
    }
    if re[0] == '$' && |re| == 1 {
      assert re == "$";
      StartsNone(true, text);
      return text == "";
    }
    StartsOne(re[0], Items(Body(re[1..])), Anchored(re), text);
    if text != "" && (re[0] == '.' || re[0] == text[0]) {
      found := MatchHere(re[1..], text[1..]);
      return;
    }
    return false;
  }

  lemma EmptyBody()
    ensures Items(Body("")) == [] && !Anchored("")
  {
  }

  method MatchStar(c: char, re: string, text: string) returns (found: bool)
    ensures found <==> Starts([Star(c)] + Items(Body(re)), Anchored(re), text)
    decreases |re|, 1
  {
    hide Items, Starts;
    StartsStar(c, Items(Body(re)), Anchored(re), text);
    var k := 0;
    while true
      invariant Run(c, text, k)
      invariant forall j :: 0 <= j < k ==> !Starts(Items(Body(re)), Anchored(re), text[j..])
      decreases |text| - k
    {
      found := MatchHere(re, text[k..]);
      if found { return true; }
      if k == |text| || !(text[k] == c || c == '.') { break; }
      k := k + 1;
    }
    assert forall j :: Run(c, text, j) ==> j <= k;
    return false;
  }

  /** match is sound, complete and terminating for every pattern and text. */
  method Match(re: string, text: string) returns (found: bool)
    ensures found <==> Means(re, text)
  {
    hide StartsRe;
    if re != "" && re[0] == '^' {
      found := MatchHere(re[1..], text);
      return;
    }
    var i := 0;
    while true
      invariant i <= |text| && forall j :: 0 <= j < i ==> !StartsRe(re, text[j..])
      decreases |text| - i
    {
      found := MatchHere(re, text[i..]);
      if found { return true; }
      if i == |text| { break; }
      i := i + 1;
    }
    return false;
  }
}
