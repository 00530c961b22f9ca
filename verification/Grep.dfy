/**
  The pattern matcher of grep.c, against what its patterns mean. Text and patterns are C strings
  without their NUL.
 */
module Grep {
  // c or c*, where c = '.' stands for any character.
  datatype Item = One(c: char) | Star(c: char)

  predicate Is(c: char, x: char)
  {
    c == '.' || c == x
  }

  // The items of a pattern without its leading '^'. A '*' makes the character before it a Star
  // whatever that is; a '$' at the very end is not an item.
  function Items(re: string): seq<Item>
  {
    if re == "" || re == "$" then []
    else if |re| >= 2 && re[1] == '*' then [Star(re[0])] + Items(re[2..])
    else [One(re[0])] + Items(re[1..])
  }

  // Whether that '$' is there.
  predicate AtEnd(re: string)
  {
    if re == "" then false
    else if re == "$" then true
    else if |re| >= 2 && re[1] == '*' then AtEnd(re[2..])
    else AtEnd(re[1..])
  }

  // w is a word of the language of the items.
  ghost predicate Word(items: seq<Item>, w: string)
    decreases |items|
  {
    if items == [] then w == ""
    else
      match items[0]
      case One(c) => w != "" && Is(c, w[0]) && Word(items[1..], w[1..])
      case Star(c) => exists k :: 0 <= k <= |w| && AllAre(c, w[..k]) && Word(items[1..], w[k..])
  }

  predicate AllAre(c: char, w: string)
  {
    forall i :: 0 <= i < |w| ==> Is(c, w[i])
  }

  // The first j characters of text match.
  ghost predicate PrefixMatches(re: string, text: string, j: int)
  {
    0 <= j <= |text| && Word(Items(re), text[..j]) && (AtEnd(re) ==> j == |text|)
  }

  // A prefix of text matches.
  ghost predicate Here(re: string, text: string)
  {
    exists j :: PrefixMatches(re, text, j)
  }

  ghost predicate StarHere(c: char, re: string, text: string)
  {
    exists k :: 0 <= k <= |text| && AllAre(c, text[..k]) && Here(re, text[k..])
  }

  lemma HereEmpty(text: string)
    ensures Here("", text)
  {
    assert PrefixMatches("", text, 0);
  }

  lemma HereEnd(text: string)
    ensures Here("$", text) <==> text == ""
  {
    if text == "" {
      assert PrefixMatches("$", text, 0);
    }
  }

  lemma HereStar(re: string, text: string)
    requires |re| >= 2 && re[1] == '*'
    ensures Here(re, text) <==> StarHere(re[0], re[2..], text)
  {
    if j :| PrefixMatches(re, text, j) {
      var w := text[..j];
      var k :| 0 <= k <= |w| && AllAre(re[0], w[..k]) && Word(Items(re[2..]), w[k..]);
      assert w[..k] == text[..k] && w[k..] == text[k..][..j - k];
      assert PrefixMatches(re[2..], text[k..], j - k);
    }
    if k :| 0 <= k <= |text| && AllAre(re[0], text[..k]) && Here(re[2..], text[k..]) {
      var j :| PrefixMatches(re[2..], text[k..], j);
      var w := text[..k + j];
      assert w[..k] == text[..k] && w[k..] == text[k..][..j];
      assert PrefixMatches(re, text, k + j);
    }
  }

  lemma HereOne(re: string, text: string)
    requires re != "" && re != "$" && !(|re| >= 2 && re[1] == '*')
    ensures Here(re, text) <==> text != "" && Is(re[0], text[0]) && Here(re[1..], text[1..])
  {
    if j :| PrefixMatches(re, text, j) {
      assert text[..j][1..] == text[1..][..j - 1];
      assert PrefixMatches(re[1..], text[1..], j - 1);
    }
    if text != "" && Is(re[0], text[0]) && Here(re[1..], text[1..]) {
      var j :| PrefixMatches(re[1..], text[1..], j);
      assert text[..j + 1][1..] == text[1..][..j];
      assert PrefixMatches(re, text, j + 1);
    }
  }

  method Matchhere(re: string, text: string) returns (r: bool)
    ensures r <==> Here(re, text)
    decreases |re|, 0
  {
    if re == "" {
      HereEmpty(text);
      return true;
    }
    if |re| >= 2 && re[1] == '*' {
      HereStar(re, text);
      r := Matchstar(re[0], re[2..], text);
      return;
    }
    if re == "$" {
      HereEnd(text);
      return text == "";
    }
    HereOne(re, text);
    if text != "" && (re[0] == '.' || re[0] == text[0]) {
      r := Matchhere(re[1..], text[1..]);
      return;
    }
    return false;
  }

  method Matchstar(c: char, re: string, text: string) returns (r: bool)
    ensures r <==> StarHere(c, re, text)
    decreases |re|, 1
  {
    var i := 0;
    while true
      invariant 0 <= i <= |text| && AllAre(c, text[..i])
      invariant forall k :: 0 <= k < i ==> !Here(re, text[k..])
      decreases |text| - i
    {
      var m := Matchhere(re, text[i..]);
      if m {
        return true;
      }
      if i == |text| || !(text[i] == c || c == '.') {
        StarStops(c, re, text, i);
        return false;
      }
      i := i + 1;
    }
  }

  lemma StarStops(c: char, re: string, text: string, i: int)
    requires 0 <= i <= |text| && (forall k :: 0 <= k <= i ==> !Here(re, text[k..]))
    requires i == |text| || !Is(c, text[i])
    ensures !StarHere(c, re, text)
  {
    if i < |text| {
      forall k | i < k <= |text| ensures !AllAre(c, text[..k]) {
        assert text[..k][i] == text[i];
      }
    }
  }

  // The pattern without its leading '^'.
  function Body(re: string): string
  {
    if re != "" && re[0] == '^' then re[1..] else re
  }

  // Characters i..j-1 match: from the start if the pattern begins with '^', up to the end if it
  // ends in '$'.
  ghost predicate PartMatches(re: string, text: string, i: int, j: int)
  {
    && 0 <= i <= j <= |text| && Word(Items(Body(re)), text[i..j])
    && (re != "" && re[0] == '^' ==> i == 0)
    && (AtEnd(Body(re)) ==> j == |text|)
  }

  // Some part of text matches.
  ghost predicate Matches(re: string, text: string)
  {
    exists i, j :: PartMatches(re, text, i, j)
  }

  lemma MatchesFrom(re: string, text: string)
    ensures Matches(re, text) <==>
            exists i :: 0 <= i <= |text| && (re != "" && re[0] == '^' ==> i == 0) && Here(Body(re), text[i..])
  {
    if i, j :| PartMatches(re, text, i, j) {
      assert text[i..][..j - i] == text[i..j];
      assert PrefixMatches(Body(re), text[i..], j - i);
    }
    if i :| 0 <= i <= |text| && (re != "" && re[0] == '^' ==> i == 0) && Here(Body(re), text[i..]) {
      var j :| PrefixMatches(Body(re), text[i..], j);
      assert text[i..][..j] == text[i..i + j];
      assert PartMatches(re, text, i, i + j);
    }
  }

  method Match(re: string, text: string) returns (r: bool)
    ensures r <==> Matches(re, text)
  {
    MatchesFrom(re, text);
    if re != "" && re[0] == '^' {
      assert text[0..] == text;
      r := Matchhere(re[1..], text);
      return;
    }
    var i := 0;
    while true
      invariant 0 <= i <= |text| && forall k :: 0 <= k < i ==> !Here(re, text[k..])
      decreases |text| - i
    {
      var m := Matchhere(re, text[i..]);
      if m {
        return true;
      }
      if i == |text| {
        return false;
      }
      i := i + 1;
    }
  }

  // A literal pattern is a substring search.
  lemma {:induction false} LiteralWord(re: string, w: string)
    requires forall i :: 0 <= i < |re| ==> re[i] != '*' && re[i] != '.' && re[i] != '$'
    ensures Word(Items(re), w) <==> w == re
    ensures !AtEnd(re)
  {
    if re != "" {
      LiteralWord(re[1..], if w == "" then "" else w[1..]);
      if w != "" {
        assert w == [w[0]] + w[1..] && re == [re[0]] + re[1..];
      }
    }
  }
}
