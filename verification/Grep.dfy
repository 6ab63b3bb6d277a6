/** The regular-expression matcher of grep.c against a declarative meaning of its patterns. */
module Grep {

  // ----- what a pattern means -----

  /** One literal or any character, a repetition of one, or the end of the text. */
  datatype Item = One(c: char) | Star(c: char) | End

  /** A pattern read left to right: x* binds first, a final $ is the end, all else is one character. */
  function Items(re: string): (items: seq<Item>)
    ensures |items| <= |re|
  {
    if re == [] then []
    else if |re| >= 2 && re[1] == '*' then [Star(re[0])] + Items(re[2..])
    else if re == "$" then [End]
    else [One(re[0])] + Items(re[1..])
  }

  predicate Fits(c: char, x: char) {
    c == '.' || c == x
  }

  /** An item accepts the characters of text from a up to b. */
  ghost predicate Accepts(item: Item, text: string, a: nat, b: nat)
    requires a <= b <= |text|
  {
    match item
    case One(c) => b == a + 1 && Fits(c, text[a])
    case Star(c) => forall k :: a <= k < b ==> Fits(c, text[k])
    case End => a == b == |text|
  }

  /** Cut points that give consecutive items consecutive stretches of text, starting at its front. */
  ghost predicate Cuts(items: seq<Item>, text: string, cut: seq<nat>) {
    && |cut| == |items| + 1
    && cut[0] == 0
    && (forall i :: 0 <= i < |items| ==> Piece(items, text, cut, i))
  }

  ghost predicate Piece(items: seq<Item>, text: string, cut: seq<nat>, i: nat)
    requires |cut| == |items| + 1 && i < |items|
  {
    cut[i] <= cut[i + 1] <= |text| && Accepts(items[i], text, cut[i], cut[i + 1])
  }

  ghost predicate Here(items: seq<Item>, text: string) {
    exists cut :: Cuts(items, text, cut)
  }

  /** The pattern is found somewhere, or at the front when it starts with ^. */
  ghost predicate Found(re: string, text: string) {
    if re != [] && re[0] == '^' then Here(Items(re[1..]), text)
    else exists p :: 0 <= p <= |text| && Here(Items(re), text[p..])
  }

  // ----- one item at a time -----

  lemma HereNone(text: string)
    ensures Here([], text)
  {
    assert Cuts([], text, [0]);
  }

  /** Items match at the front exactly when the first accepts a prefix and the others the rest. */
  lemma HereCons(item: Item, items: seq<Item>, text: string)
    ensures Here([item] + items, text) <==>
            exists n :: 0 <= n <= |text| && Accepts(item, text, 0, n) && Here(items, text[n..])
  {
    var all := [item] + items;
    if Here(all, text) {
      var cut :| Cuts(all, text, cut);
      HereTail(item, items, text, cut);
    }
    if n :| 0 <= n <= |text| && Accepts(item, text, 0, n) && Here(items, text[n..]) {
      var cut :| Cuts(items, text[n..], cut);
      HereFront(item, items, text, n, cut);
    }
  }

  lemma HereTail(item: Item, items: seq<Item>, text: string, cut: seq<nat>)
    requires Cuts([item] + items, text, cut)
    ensures cut[1] <= |text| && Accepts(item, text, 0, cut[1]) && Here(items, text[cut[1]..])
  {
    var all := [item] + items;
    assert Piece(all, text, cut, 0);
    var n := cut[1];
    CutsAfter(all, text, cut, n);
    var rest := seq(|items| + 1, i requires 0 <= i < |cut| - 1 && cut[i + 1] >= n => cut[i + 1] - n);
    forall i | 0 <= i < |items| ensures Piece(items, text[n..], rest, i) {
      assert Piece(all, text, cut, i + 1);
      AcceptsShift(items[i], text, n, cut[i + 1], cut[i + 2]);
    }
    assert Cuts(items, text[n..], rest);
  }

  /** Cut points do not go back. */
  lemma {:induction false} CutsAfter(items: seq<Item>, text: string, cut: seq<nat>, n: nat)
    requires Cuts(items, text, cut) && |items| > 0 && n == cut[1]
    ensures forall i :: 1 <= i < |cut| ==> n <= cut[i]
  {
    var k := 1;
    while k + 1 < |cut|
      invariant 1 <= k < |cut|
      invariant forall i :: 1 <= i <= k ==> n <= cut[i]
    {
      assert Piece(items, text, cut, k);
      k := k + 1;
    }
  }

  lemma AcceptsShift(item: Item, text: string, n: nat, a: nat, b: nat)
    requires n <= a <= b <= |text|
    ensures Accepts(item, text, a, b) <==> Accepts(item, text[n..], a - n, b - n)
  {
    if item.Star? && Accepts(item, text[n..], a - n, b - n) {
      forall k | a <= k < b ensures Fits(item.c, text[k]) {
        assert Fits(item.c, text[n..][k - n]);
      }
    }
  }

  lemma HereFront(item: Item, items: seq<Item>, text: string, n: nat, cut: seq<nat>)
    requires n <= |text| && Accepts(item, text, 0, n) && Cuts(items, text[n..], cut)
    ensures Here([item] + items, text)
  {
    var all := [item] + items;
    var whole := [0] + seq(|cut|, i requires 0 <= i < |cut| => cut[i] + n);
    forall i | 0 <= i < |all| ensures Piece(all, text, whole, i) {
      if i > 0 {
        assert Piece(items, text[n..], cut, i - 1);
        AcceptsShift(items[i - 1], text, n, cut[i - 1] + n, cut[i] + n);
      }
    }
    assert Cuts(all, text, whole);
  }

  // ----- the matcher -----

  /** matchhere: does the pattern match at the front of the text? */
  method Matchhere(re: string, text: string) returns (b: bool)
    ensures b <==> Here(Items(re), text)
    decreases |re|, 0
  {
    hide Here, Accepts;
    if re == [] {
      HereNone(text);
      return true;
    }
    if |re| >= 2 && re[1] == '*' {
      b := Matchstar(re[0], re[2..], text);
      return;
    }
    if re[0] == '$' && |re| == 1 {
      EndHere(text);
      assert re == "$";
      return text == [];
    }
    assert Items(re) == [One(re[0])] + Items(re[1..]);
    OneHere(re[0], Items(re[1..]), text);
    if text != [] && (re[0] == '.' || re[0] == text[0]) {
      b := Matchhere(re[1..], text[1..]);
    } else {
      b := false;
    }
  }

  lemma EndHere(text: string)
    ensures Here([End], text) <==> text == []
  {
    HereCons(End, [], text);
    assert [End] + [] == [End];
    if text == [] { HereNone(text[0..]); }
  }

  lemma OneHere(c: char, items: seq<Item>, text: string)
    ensures Here([One(c)] + items, text) <==> text != [] && Fits(c, text[0]) && Here(items, text[1..])
  {
    hide Here;
    HereCons(One(c), items, text);
    if text != [] && Fits(c, text[0]) { assert Accepts(One(c), text, 0, 1); }
  }

  /** matchstar: does c* followed by the pattern match at the front of the text? */
  method Matchstar(c: char, re: string, text: string) returns (b: bool)
    ensures b <==> Here([Star(c)] + Items(re), text)
    decreases |re|, 1
  {
    hide Here;
    HereCons(Star(c), Items(re), text);
    var i := 0;
    while true
      invariant 0 <= i <= |text|
      invariant forall k :: 0 <= k < i ==> Fits(c, text[k])
      invariant forall n :: 0 <= n < i ==> !Here(Items(re), text[n..])
      decreases |text| - i
    {
      b := Matchhere(re, text[i..]);
      if b {
        assert Accepts(Star(c), text, 0, i);
        return true;
      }
      if !(i < |text| && (text[i] == c || c == '.')) {
        assert forall n :: i < n <= |text| ==> !Accepts(Star(c), text, 0, n);
        return false;
      }
      i := i + 1;
    }
  }

  /** match: 1 exactly when the pattern is found. */
  method Match(re: string, text: string) returns (b: bool)
    ensures b <==> Found(re, text)
  {
    hide Here, Items;
    if re != [] && re[0] == '^' {
      b := Matchhere(re[1..], text);
      return;
    }
    var p := 0;
    while true
      invariant 0 <= p <= |text|
      invariant forall q :: 0 <= q < p ==> !Here(Items(re), text[q..])
      decreases |text| - p
    {
      b := Matchhere(re, text[p..]);
      if b { return true; }
      if p == |text| { return false; }
      p := p + 1;
    }
  }
}
