/** The regular-expression matcher of grep.c.

    Strings are the characters before the terminating NUL.  A pattern is read as a
    list of items, and a match is declared by giving each item its own segment of
    the text; the recursive matcher is proved to decide exactly that. */
module Grep {

  /** A character class: one character, or any if it is the dot. */
  datatype Item = One(c: char) | Star(c: char) | End

  predicate Allows(c: char, x: char) {
    c == '.' || c == x
  }

  function Items(re: string): (items: seq<Item>) {
    if re == "" then []
    else if |re| > 1 && re[1] == '*' then [Star(re[0])] + Items(re[2..])
    else if re == "$" then [End]
    else [One(re[0])] + Items(re[1..])
  }

  // ---------- patterns and items ----------

  function ShowItem(item: Item): (re: string)
    ensures re != ""
  {
    match item
    case One(c) => [c]
    case Star(c) => [c, '*']
    case End => "$"
  }

  function Show(items: seq<Item>): string {
    if items == [] then "" else ShowItem(items[0]) + Show(items[1..])
  }

  /** Items that can be written down: no single character before one that shows as a
      star, no dollar as the last character, and an end anchor only at the end. */
  predicate Readable(items: seq<Item>) {
    items == [] ||
    (Readable(items[1..]) &&
     match items[0]
     case One(c) => if |items| == 1 then c != '$' else ShowItem(items[1])[0] != '*'
     case Star(_) => true
     case End => |items| == 1)
  }

  /** A pattern is what its items show, and they can be written down. */
  lemma {:induction false} ShowItems(re: string)
    ensures Show(Items(re)) == re && Readable(Items(re))
    decreases |re|
  {
    if re == "" {
    } else if |re| > 1 && re[1] == '*' {
      ShowItems(re[2..]);
      assert ([Star(re[0])] + Items(re[2..]))[1..] == Items(re[2..]);
      assert [re[0], '*'] + re[2..] == re;
    } else if re == "$" {
      assert [End][1..] == [];
      assert Show([End]) == "$" + Show([End][1..]);
    } else {
      ShowItems(re[1..]);
      var items := [One(re[0])] + Items(re[1..]);
      assert items[1..] == Items(re[1..]);
      assert [re[0]] + re[1..] == re;
      if |re| > 1 {
        assert Show(items[1..])[0] == re[1];
      }
    }
  }

  /** Written down, such items are read back. */
  lemma {:induction false} ItemsShow(items: seq<Item>)
    requires Readable(items)
    ensures Items(Show(items)) == items
    decreases |items|
  {
    if items != [] {
      ItemsShow(items[1..]);
      var rest := Show(items[1..]);
      assert items == [items[0]] + items[1..];
      match items[0]
      case One(c) =>
        assert ([c] + rest)[1..] == rest;
        if |items| > 1 {
          assert rest[0] == ShowItem(items[1])[0];
        }
      case Star(c) => assert ([c, '*'] + rest)[2..] == rest;
      case End => assert items[1..] == [];
    }
  }

  /** Reading is the inverse of showing, on exactly the lists that can be written down. */
  lemma ReadsBackIff(items: seq<Item>)
    ensures Items(Show(items)) == items <==> Readable(items)
  {
    ShowItems(Show(items));
    if Readable(items) {
      ItemsShow(items);
    }
  }

  // ---------- what it means to match ----------

  ghost predicate Fits(item: Item, seg: string) {
    match item
    case One(c) => |seg| == 1 && Allows(c, seg[0])
    case Star(c) => forall i :: 0 <= i < |seg| ==> Allows(c, seg[i])
    case End => seg == ""
  }

  ghost function Joined(segs: seq<string>): string {
    if segs == [] then "" else segs[0] + Joined(segs[1..])
  }

  /** `segs` splits a prefix of the text among the items; nothing may follow an end anchor. */
  ghost predicate Split(items: seq<Item>, text: string, segs: seq<string>, rest: string) {
    && |segs| == |items| && Joined(segs) + rest == text
    && (forall i :: 0 <= i < |items| ==> Fits(items[i], segs[i]))
    && (End in items ==> rest == "")
  }

  ghost predicate MatchesPrefix(items: seq<Item>, text: string) {
    exists segs, rest :: Split(items, text, segs, rest)
  }

  /** What `match` promises: at the start for a pattern with ^, anywhere otherwise. */
  ghost predicate Matches(re: string, text: string) {
    if re != "" && re[0] == '^' then MatchesPrefix(Items(re[1..]), text)
    else exists k :: 0 <= k <= |text| && MatchesPrefix(Items(re), text[k..])
  }

  // ---------- one item at a time ----------

  lemma MatchNothing(text: string)
    ensures MatchesPrefix([], text)
  {
    assert Split([], text, [], text);
  }

  lemma MatchEnd(text: string)
    ensures MatchesPrefix([End], text) <==> text == ""
  {
    if MatchesPrefix([End], text) {
      var segs, rest :| Split([End], text, segs, rest);
      assert Fits([End][0], segs[0]) && End in [End];
      assert segs == [segs[0]] && Joined(segs[1..]) == "";
    }
    if text == "" {
      assert Joined([""]) == "" + Joined([""][1..]);
      assert Split([End], text, [""], "");
    }
  }

  lemma SplitCons(item: Item, items: seq<Item>, text: string, k: nat, segs: seq<string>, rest: string)
    requires k <= |text| && Fits(item, text[..k]) && Split(items, text[k..], segs, rest)
    requires item.End? ==> rest == ""
    ensures MatchesPrefix([item] + items, text)
  {
    var all := [text[..k]] + segs;
    assert all[1..] == segs;
    assert Joined(all) + rest == text[..k] + (Joined(segs) + rest);
    assert text[..k] + text[k..] == text;
    assert Split([item] + items, text, all, rest);
  }

  lemma SplitUncons(item: Item, items: seq<Item>, text: string) returns (k: nat)
    requires MatchesPrefix([item] + items, text)
    ensures k <= |text| && Fits(item, text[..k]) && MatchesPrefix(items, text[k..])
  {
    var all := [item] + items;
    var segs, rest :| Split(all, text, segs, rest);
    k := |segs[0]|;
    assert text == segs[0] + (Joined(segs[1..]) + rest);
    assert Fits(all[0], segs[0]) && text[..k] == segs[0];
    forall i | 0 <= i < |items| ensures Fits(items[i], segs[1..][i]) {
      assert Fits(all[i+1], segs[i+1]);
    }
    assert End in items ==> End in all;
    assert Split(items, text[k..], segs[1..], rest);
  }

  lemma MatchOne(c: char, items: seq<Item>, text: string)
    ensures MatchesPrefix([One(c)] + items, text) <==>
              text != "" && Allows(c, text[0]) && MatchesPrefix(items, text[1..])
  {
    if MatchesPrefix([One(c)] + items, text) {
      var k := SplitUncons(One(c), items, text);
    }
    if text != "" && Allows(c, text[0]) && MatchesPrefix(items, text[1..]) {
      var segs, rest :| Split(items, text[1..], segs, rest);
      SplitCons(One(c), items, text, 1, segs, rest);
    }
  }

  ghost predicate StarMatch(c: char, items: seq<Item>, text: string, k: nat) {
    k <= |text| && (forall i :: 0 <= i < k ==> Allows(c, text[i])) && MatchesPrefix(items, text[k..])
  }

  ghost predicate SomeStarMatch(c: char, items: seq<Item>, text: string) {
    exists k: nat :: StarMatch(c, items, text, k)
  }

  lemma MatchStarItem(c: char, items: seq<Item>, text: string)
    ensures MatchesPrefix([Star(c)] + items, text) <==> SomeStarMatch(c, items, text)
  {
    if MatchesPrefix([Star(c)] + items, text) {
      var k := SplitUncons(Star(c), items, text);
      assert forall i :: 0 <= i < k ==> text[i] == text[..k][i];
      assert StarMatch(c, items, text, k);
    }
    if k: nat :| StarMatch(c, items, text, k) {
      var segs, rest :| Split(items, text[k..], segs, rest);
      SplitCons(Star(c), items, text, k, segs, rest);
    }
  }

  // ---------- the matcher ----------

  method MatchHere(re: string, text: string) returns (r: bool)
    ensures r <==> MatchesPrefix(Items(re), text)
    decreases |re|, 0
  {
    if re == "" {
      MatchNothing(text);
      return true;
    }
    if |re| > 1 && re[1] == '*' {
      MatchStarItem(re[0], Items(re[2..]), text);
      r := MatchStar(re[0], re[2..], text);
      return;
    }
    if re == "$" {
      MatchEnd(text);
      return text == "";
    }
    MatchOne(re[0], Items(re[1..]), text);
    if text != "" && (re[0] == '.' || re[0] == text[0]) {
      r := MatchHere(re[1..], text[1..]);
      return;
    }
    return false;
  }

  /** Search for c*re: try the rest of the pattern after zero, one, two, ... matching
      characters. */
  method MatchStar(c: char, re: string, text: string) returns (r: bool)
    ensures r <==> SomeStarMatch(c, Items(re), text)
    decreases |re|, 1
  {
    var i := 0;
    while true
      invariant 0 <= i <= |text|
      invariant forall m :: 0 <= m < i ==> Allows(c, text[m])
      invariant forall k: nat :: k < i ==> !StarMatch(c, Items(re), text, k)
      decreases |text| - i
    {
      var here := MatchHere(re, text[i..]);
      if here {
        assert StarMatch(c, Items(re), text, i);
        return true;
      }
      if i == |text| || !(text[i] == c || c == '.') {
        return false;
      }
      i := i + 1;
    }
  }

  method Match(re: string, text: string) returns (r: bool)
    ensures r <==> Matches(re, text)
  {
    if re != "" && re[0] == '^' {
      r := MatchHere(re[1..], text);
      return;
    }
    var i := 0;
    while true
      invariant 0 <= i <= |text|
      invariant forall k :: 0 <= k < i ==> !MatchesPrefix(Items(re), text[k..])
      decreases |text| - i
    {
      var here := MatchHere(re, text[i..]);
      if here {
        return true;
      }
      if i == |text| {
        return false;
      }
      i := i + 1;
    }
  }
}
