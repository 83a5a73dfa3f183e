/** The regular-expression matcher of src/grep.c. Strings are sequences of
    characters without the terminating NUL. */
module Matcher {

  // ---- Patterns and the words they describe ----

  datatype Item = One(c: char) | Star(c: char) | End

  /** The items of a pattern: `c*`, a final `$`, or a single character. */
  function Parse(re: string): (items: seq<Item>)
    ensures forall i :: 0 <= i < |items| && items[i].End? ==> i == |items| - 1
    decreases |re|
  {
    if re == "" then []
    else if |re| >= 2 && re[1] == '*' then [Star(re[0])] + Parse(re[2..])
    else if re == "$" then [End]
    else [One(re[0])] + Parse(re[1..])
  }

  /** `.` stands for any character. */
  predicate Accepts(c: char, x: char) { c == '.' || c == x }

  ghost predicate All(c: char, w: string) { forall i :: 0 <= i < |w| ==> Accepts(c, w[i]) }

  ghost predicate Fits(item: Item, w: string)
  {
    match item
    case One(c) => |w| == 1 && Accepts(c, w[0])
    case Star(c) => All(c, w)
    case End => w == ""
  }

  function Concat(ws: seq<string>): string
  {
    if ws == [] then "" else ws[0] + Concat(ws[1..])
  }

  ghost predicate Pieces(items: seq<Item>, ws: seq<string>)
  {
    |ws| == |items| && forall i :: 0 <= i < |items| ==> Fits(items[i], ws[i])
  }

  /** w falls into pieces, one for each item. */
  ghost predicate InLanguage(items: seq<Item>, w: string)
  {
    exists ws :: Pieces(items, ws) && Concat(ws) == w
  }

  predicate Anchored(items: seq<Item>) { items != [] && items[|items| - 1].End? }

  /** Some beginning of t, all of t if the pattern ends in `$`, is a word of
      the pattern. */
  ghost predicate Here(items: seq<Item>, t: string)
  {
    exists n :: PrefixOf(items, t, n)
  }

  ghost predicate PrefixOf(items: seq<Item>, t: string, n: int)
  {
    0 <= n <= |t| && InLanguage(items, t[..n]) && (Anchored(items) ==> n == |t|)
  }

  /** What `match` is to decide: a `^` pattern describes a beginning of the
      text, any other a substring. */
  ghost predicate Matches(re: string, text: string)
  {
    if re != "" && re[0] == '^' then Here(Parse(re[1..]), text)
    else exists k :: 0 <= k <= |text| && Here(Parse(re), text[k..])
  }

  /** The text of a pattern. */
  function Render(items: seq<Item>): string
  {
    if items == [] then "" else
      (match items[0]
       case One(c) => [c]
       case Star(c) => [c, '*']
       case End => "$") + Render(items[1..])
  }

  /** The items are all there is to a pattern, and it means no other. */
  lemma {:induction false} ParseWhole(re: string)
    ensures Render(Parse(re)) == re
    decreases |re|
  {
    if re == "" {
    } else if |re| >= 2 && re[1] == '*' {
      ParseWhole(re[2..]);
      assert Parse(re)[1..] == Parse(re[2..]);
      assert [re[0], '*'] + re[2..] == re;
    } else if re == "$" {
      assert Parse(re)[1..] == [];
    } else {
      ParseWhole(re[1..]);
      assert Parse(re)[1..] == Parse(re[1..]);
      assert [re[0]] + re[1..] == re;
    }
  }

  // ---- The words of a pattern, item by item ----

  lemma ConsWord(item: Item, rest: seq<Item>, u: string, v: string)
    requires Fits(item, u) && InLanguage(rest, v)
    ensures InLanguage([item] + rest, u + v)
  {
    hide Fits;
    var ws :| Pieces(rest, ws) && Concat(ws) == v;
    var all := [u] + ws;
    assert all[1..] == ws;
    assert Pieces([item] + rest, all) && Concat(all) == u + v;
  }

  lemma UnconsWord(item: Item, rest: seq<Item>, w: string) returns (k: nat)
    requires InLanguage([item] + rest, w)
    ensures k <= |w| && Fits(item, w[..k]) && InLanguage(rest, w[k..])
  {
    hide Fits;
    var items := [item] + rest;
    var ws :| Pieces(items, ws) && Concat(ws) == w;
    k := |ws[0]|;
    assert w[..k] == ws[0] && w[k..] == Concat(ws[1..]);
    assert Fits(items[0], ws[0]);
    forall i | 0 <= i < |rest| ensures Fits(rest[i], ws[1..][i]) {
      assert Fits(items[i + 1], ws[i + 1]);
    }
    assert Pieces(rest, ws[1..]);
  }

  lemma EmptyWord()
    ensures InLanguage([], "")
  {
    assert Pieces([], []) && Concat([]) == "";
  }

  /** Putting one more item, and what it takes, in front. */
  lemma ConsHere(item: Item, rest: seq<Item>, t: string, k: nat)
    requires k <= |t| && Fits(item, t[..k]) && Here(rest, t[k..]) && !item.End?
    ensures Here([item] + rest, t)
  {
    hide InLanguage, Fits;
    var n :| PrefixOf(rest, t[k..], n);
    ConsWord(item, rest, t[..k], t[k..][..n]);
    assert t[..k] + t[k..][..n] == t[..k + n];
    assert PrefixOf([item] + rest, t, k + n);
  }

  lemma UnconsHere(item: Item, rest: seq<Item>, t: string) returns (k: nat)
    requires Here([item] + rest, t)
    ensures k <= |t| && Fits(item, t[..k]) && Here(rest, t[k..])
  {
    hide InLanguage, Fits;
    var n :| PrefixOf([item] + rest, t, n);
    k := UnconsWord(item, rest, t[..n]);
    assert t[..n][..k] == t[..k] && t[..n][k..] == t[k..][..n - k];
    assert PrefixOf(rest, t[k..], n - k);
  }

  lemma HereEmpty(t: string)
    ensures Here([], t)
  {
    EmptyWord();
    assert t[..0] == "";
    assert PrefixOf([], t, 0);
  }

  lemma HereEnd(t: string)
    ensures Here([End], t) <==> t == ""
  {
    if t == "" {
      EmptyWord();
      ConsWord(End, [], "", "");
      assert [End] + [] == [End] && t[..0] == "" + "";
      assert PrefixOf([End], t, 0);
    }
    if Here([End], t) {
      var n :| PrefixOf([End], t, n);
      assert [End] + [] == [End];
      var k := UnconsWord(End, [], t[..n]);
      var ws: seq<string> :| Pieces([], ws) && Concat(ws) == t[..n][k..];
      assert t[..n] == t[..n][..k] + t[..n][k..];
    }
  }

  lemma HereOne(c: char, rest: seq<Item>, t: string)
    ensures Here([One(c)] + rest, t) <==> t != "" && Accepts(c, t[0]) && Here(rest, t[1..])
  {
    hide Here;
    if Here([One(c)] + rest, t) {
      var k := UnconsHere(One(c), rest, t);
      assert k == 1 && t[..k][0] == t[0];
    }
    if t != "" && Accepts(c, t[0]) && Here(rest, t[1..]) {
      assert t[..1][0] == t[0];
      ConsHere(One(c), rest, t, 1);
    }
  }

  /** What `matchstar` is to decide. */
  ghost predicate StarHere(c: char, rest: seq<Item>, t: string)
  {
    exists k :: StarAt(c, rest, t, k)
  }

  ghost predicate StarAt(c: char, rest: seq<Item>, t: string, k: int)
  {
    0 <= k <= |t| && All(c, t[..k]) && Here(rest, t[k..])
  }

  lemma HereStar(c: char, rest: seq<Item>, t: string)
    ensures Here([Star(c)] + rest, t) <==> StarHere(c, rest, t)
  {
    hide Here;
    if Here([Star(c)] + rest, t) {
      var k := UnconsHere(Star(c), rest, t);
      assert StarAt(c, rest, t, k);
    }
    if k :| StarAt(c, rest, t, k) {
      ConsHere(Star(c), rest, t, k);
    }
  }

  // ---- Patterns without special characters ----

  predicate Plain(re: string)
  {
    forall i :: 0 <= i < |re| ==> re[i] != '.' && re[i] != '*' && re[i] != '$' && re[i] != '^'
  }

  lemma {:induction false} PlainHere(re: string, t: string)
    requires Plain(re)
    ensures Here(Parse(re), t) <==> re <= t
    decreases |re|
  {
    hide Here;
    if re == "" {
      HereEmpty(t);
    } else {
      HereOne(re[0], Parse(re[1..]), t);
      if t != "" {
        PlainHere(re[1..], t[1..]);
        assert re == [re[0]] + re[1..] && t == [t[0]] + t[1..];
      }
    }
  }

  /** Without special characters, `match` looks for a substring. */
  lemma PlainMatches(re: string, text: string)
    requires Plain(re)
    ensures Matches(re, text) <==> exists k :: 0 <= k <= |text| && re <= text[k..]
  {
    hide Here;
    forall k | 0 <= k <= |text| ensures Here(Parse(re), text[k..]) <==> re <= text[k..] {
      PlainHere(re, text[k..]);
    }
  }

  // ---- The code ----

  /** `match`. */
  method Match(re: string, text: string) returns (r: bool)
    ensures r <==> Matches(re, text)
  {
    if re != "" && re[0] == '^' {
      r := MatchHere(re[1..], text);
      return;
    }
    var i := 0;
    while true
      invariant 0 <= i <= |text|
      invariant forall k :: 0 <= k < i ==> !Here(Parse(re), text[k..])
      decreases |text| - i
    {
      r := MatchHere(re, text[i..]);
      if r {
        return;
      }
      if i == |text| {
        break;
      }
      i := i + 1;
    }
    return false;
  }

  /** `matchhere`. */
  method MatchHere(re: string, text: string) returns (r: bool)
    ensures r <==> Here(Parse(re), text)
    decreases |re|, 0
  {
    hide Here, StarHere;
    if re == "" {
      HereEmpty(text);
      return true;
    }
    if |re| >= 2 && re[1] == '*' {
      HereStar(re[0], Parse(re[2..]), text);
      r := MatchStar(re[0], re[2..], text);
      return;
    }
    if re[0] == '$' && |re| == 1 {
      HereEnd(text);
      return text == "";
    }
    HereOne(re[0], Parse(re[1..]), text);
    if text != "" && (re[0] == '.' || re[0] == text[0]) {
      r := MatchHere(re[1..], text[1..]);
      return;
    }
    return false;
  }

  /** `matchstar`. */
  method MatchStar(c: char, re: string, text: string) returns (r: bool)
    ensures r <==> StarHere(c, Parse(re), text)
    decreases |re|, 1
  {
    hide Here, Parse;
    var i := 0;
    while true
      invariant 0 <= i <= |text| && All(c, text[..i])
      invariant forall k :: 0 <= k < i ==> !Here(Parse(re), text[k..])
      decreases |text| - i
    {
      r := MatchHere(re, text[i..]);
      if r {
        assert StarAt(c, Parse(re), text, i);
        return;
      }
      if i == |text| || !(text[i] == c || c == '.') {
        break;
      }
      i := i + 1;
    }
    forall k | 0 <= k <= |text| ensures !StarAt(c, Parse(re), text, k) {
      if k > i {
        assert text[..k][i] == text[i];
      }
    }
    return false;
  }
}
